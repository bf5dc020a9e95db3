/** `schedule_charging_and_climate`: the combined write, the two-request write of EV5 cars,
    and the device-id retry around both, over any server. */
module Protocol {
  import opened Prelude
  import opened Schedule
  import opened Vehicles
  import opened Wire
  import opened Polling

  datatype ScheduleError =
    | NoChanges                                   // ValueError: no scope is active
    | NoTemperature                               // ValueError: the temperature guard
    | FromServer(failure: Failure)                // whatever a request raised
    | ChannelBusy(chargeId: string, state: Status) // DuplicateRequestError: the charge did not settle
    | ChargeEnded(chargeId: string, state: Status) // APIError: the charge settled badly
    | ClimateRefused(chargeId: string)            // DuplicateRequestError: charge applied, climate refused

  predicate IsValueError(e: ScheduleError) {
    e.NoChanges? || e.NoTemperature? || e == FromServer(UndecodableReply)
  }

  const POLL_TIMEOUT := 15

  // ----- what a call is going to send, as a function of the options and the vehicle

  datatype Plan =
    | Refuse(error: ScheduleError)
    | Flat(charge: Option<ChargePayload>, hvac: Option<HvacPayload>)
    | Combined(payload: CombinedPayload)

  datatype Car = Car(state: Reported, unit: Option<TemperatureUnit>, flat: bool)

  function CarOf(vehicle: Vehicle): Car
    reads vehicle
  {
    Car(vehicle.View(), vehicle.evFirstDepartureClimateTemperatureUnit, vehicle.ccs2Support && vehicle.isEv)
  }

  /** The options once every requested scope is filled. */
  function Filled(o: Options, car: Car, shared: bool): Options {
    if car.flat then Fill(o, car.state, ChargeActive(o), ClimateActive(o), shared)
    else Fill(o, car.state, true, true, shared)
  }

  function PlanFor(o: Options, car: Car, shared: bool): Plan {
    FillCompletes(o, car.state, ChargeActive(o), ClimateActive(o), shared);
    FillCompletes(o, car.state, true, true, shared);
    var f := Filled(o, car, shared);
    if car.flat && !ChargeActive(o) && !ClimateActive(o) then Refuse(NoChanges)
    else if (car.flat ==> ClimateActive(o)) && !HasTemperature(o, car.state) then Refuse(NoTemperature)
    else if car.flat then
      Flat(if ChargeActive(o) then Some(BuildCharge(f)) else None,
           if ClimateActive(o) then Some(BuildHvac(f, WireUnit(car.unit))) else None)
    else Combined(BuildCombined(f, WireUnit(car.unit)))
  }

  /** The options after an attempt: filled, unless it was refused. A refusal by the
      temperature guard comes after the charge scope has been filled. */
  function After(o: Options, car: Car, shared: bool): Options {
    match PlanFor(o, car, shared)
    case Refuse(NoChanges) => o
    case Refuse(_) => Fill(o, car.state, car.flat && ChargeActive(o), false, shared)
    case _ => Filled(o, car, shared)
  }

  /** The options that one attempt has filled make the next attempt send the same. */
  lemma RetrySendsTheSame(o: Options, car: Car, shared: bool)
    requires !PlanFor(o, car, shared).Refuse?
    ensures PlanFor(After(o, car, shared), car, shared) == PlanFor(o, car, shared)
    ensures After(After(o, car, shared), car, shared) == After(o, car, shared)
  {
    var f := Filled(o, car, shared);
    FillKeepsScopes(o, car.state, shared);
    if car.flat {
      FillIdempotent(o, car.state, ChargeActive(o), ClimateActive(o), shared);
      FillCompletes(o, car.state, ChargeActive(o), ClimateActive(o), shared);
    } else {
      FillIdempotent(o, car.state, true, true, shared);
      FillCompletes(o, car.state, true, true, shared);
    }
    assert Filled(f, car, shared) == f;
  }

  // ----- one attempt and its log

  datatype Poll = Poll(result: Result<Status, Failure>, cut: Option<nat>)

  /** The requests of one attempt, in order, by kind, and what its poll gave. */
  datatype Trace = Trace(
    combined: seq<Event>, charge: seq<Event>, polls: seq<Event>, poll: Option<Poll>, hvac: seq<Event>)

  const SILENT := Trace([], [], [], None, [])

  function Requests(t: Trace): seq<Event> {
    t.combined + t.charge + t.polls + t.hvac
  }

  type Outcome = Result<string, ScheduleError>

  function Unwrap(r: PostReply): Result<string, Failure> {
    match r
    case Accepted(id) => Ok(id)
    case Refused(f) => Err(f)
  }

  /** What one request came to: its headers could not be had, or it was posted and got its
      reply. None when the events are not those of one request. */
  function SentResult(events: seq<Event>): Option<Result<string, Failure>> {
    if |events| != 1 then None
    else
      match events[0]
      case HeadersFailed(f) => Some(Err(f))
      case PostCombined(_, reply) => Some(Unwrap(reply))
      case PostCharge(_, reply) => Some(Unwrap(reply))
      case PostHvac(_, reply) => Some(Unwrap(reply))
      case _ => None
  }

  datatype Kind = ChargeKind | HvacKind | CombinedKind

  predicate Is(e: Event, k: Kind) {
    match k
    case ChargeKind => e.PostCharge?
    case HvacKind => e.PostHvac?
    case CombinedKind => e.PostCombined?
  }

  /** A post carries the payload of the plan. */
  predicate Planned(plan: Plan, e: Event) {
    match e
    case PostCharge(p, _) => plan.Flat? && plan.charge == Some(p)
    case PostHvac(p, _) => plan.Flat? && plan.hvac == Some(p)
    case PostCombined(p, _) => plan == Combined(p)
    case _ => true
  }

  /** The event is this request, or the failed fetch of its headers. */
  predicate Carries(events: seq<Event>, plan: Plan, k: Kind) {
    forall i | 0 <= i < |events| :: events[i].HeadersFailed? || (Is(events[i], k) && Planned(plan, events[i]))
  }

  /** The end of an attempt that gets as far as the climate request. */
  predicate EndsWithHvac(plan: Plan, chargeId: Option<string>, t: Trace, r: Outcome) {
    && Carries(t.hvac, plan, HvacKind)
    && SentResult(t.hvac).Some?
    && match SentResult(t.hvac).value
       case Ok(id) => r == Ok(if chargeId.Some? then chargeId.value else id)
       case Err(f) =>
         r == Err(if f == DuplicateError && chargeId.Some? then ClimateRefused(chargeId.value) else FromServer(f))
  }

  /** The poll of an accepted charge request, and what follows from it. */
  predicate AfterCharge(plan: Plan, id: string, t: Trace, r: Outcome) {
    && t.poll.Some?
    && RetriedPoll(t.polls, id, t.poll.value.result, t.poll.value.cut)
    && FewReads(t.polls, POLL_TIMEOUT, t.poll.value.cut)
    && match t.poll.value.result
       case Ok(Succeeded) => EndsWithHvac(plan, Some(id), t, r)
       case Ok(st) =>
         && t.hvac == []
         && r == Err(if st == TimedOut || st == Pending then ChannelBusy(id, st) else ChargeEnded(id, st))
       case Err(f) => t.hvac == [] && r == Err(FromServer(f))
  }

  function FromSent(sent: Result<string, Failure>): Outcome {
    match sent
    case Ok(id) => Ok(id)
    case Err(f) => Err(FromServer(f))
  }

  predicate FollowsCombined(plan: Plan, t: Trace, r: Outcome) {
    && t == SILENT.(combined := t.combined)
    && Carries(t.combined, plan, CombinedKind)
    && SentResult(t.combined).Some? && r == FromSent(SentResult(t.combined).value)
  }

  /** A flat write: the charge request if there is one, the poll of its record if a climate
      request is to follow, and that request. Whatever fails ends the attempt. */
  predicate FollowsFlat(plan: Plan, t: Trace, r: Outcome)
    requires plan.Flat?
  {
    && t.combined == []
    && if plan.charge.None? then t == SILENT.(hvac := t.hvac) && EndsWithHvac(plan, None, t, r)
       else
         && Carries(t.charge, plan, ChargeKind) && SentResult(t.charge).Some?
         && var sent := SentResult(t.charge).value;
            if sent.Err? || plan.hvac.None? then t == SILENT.(charge := t.charge) && r == FromSent(sent)
            else AfterCharge(plan, sent.value, t, r)
  }

  predicate Follows(plan: Plan, t: Trace, r: Outcome) {
    match plan
    case Refuse(e) => t == SILENT && r == Err(e)
    case Combined(p) => FollowsCombined(plan, t, r)
    case Flat(charge, hvac) => FollowsFlat(plan, t, r)
  }

  /** A busy channel is reported because a record said so, or after fifteen seconds. */
  predicate WaitedEnough(t: Trace, r: Outcome, elapsed: int) {
    r.Err? && r.error.ChannelBusy? && !SettledBy(t.polls, r.error.chargeId, TimedOut) ==> elapsed >= 15 * SECOND
  }

  // ----- requests

  /** `_get_control_headers`, which may itself have to fetch a token and fail. */
  method ControlHeaders(s: Session) returns (failure: Option<Failure>)
    requires s.Valid()
    modifies s`log
    ensures s.Valid() && failure == s.headerFailures(|old(s.log)|)
    ensures s.log == old(s.log) + if failure.Some? then [HeadersFailed(failure.value)] else []
  {
    failure := s.headerFailures(|s.log|);
    if failure.Some? {
      s.log := s.log + [HeadersFailed(failure.value)];
    }
  }

  method SendCombined(s: Session, p: CombinedPayload) returns (r: Result<string, Failure>, ghost t: seq<Event>)
    requires s.Valid()
    modifies s`log, s`now, s`ticks
    ensures s.Valid()
    ensures s.log == old(s.log) + t
    ensures SentResult(t) == Some(r) && Carries(t, Combined(p), CombinedKind) && s.now >= old(s.now)
  {
    var failure := ControlHeaders(s);
    if failure.Some? {
      return Err(failure.value), [HeadersFailed(failure.value)];
    }
    var reply := s.postReplies(|s.log|);
    s.Elapse(0);
    s.log := s.log + [PostCombined(p, reply)];
    return Unwrap(reply), [PostCombined(p, reply)];
  }

  method SendCharge(s: Session, p: ChargePayload, ghost plan: Plan)
      returns (r: Result<string, Failure>, ghost t: seq<Event>)
    requires plan.Flat? && plan.charge == Some(p)
    requires s.Valid()
    modifies s`log, s`now, s`ticks
    ensures s.Valid()
    ensures s.log == old(s.log) + t
    ensures SentResult(t) == Some(r) && Carries(t, plan, ChargeKind) && s.now >= old(s.now)
  {
    var failure := ControlHeaders(s);
    if failure.Some? {
      return Err(failure.value), [HeadersFailed(failure.value)];
    }
    var reply := s.postReplies(|s.log|);
    s.Elapse(0);
    s.log := s.log + [PostCharge(p, reply)];
    return Unwrap(reply), [PostCharge(p, reply)];
  }

  method SendHvac(s: Session, p: HvacPayload, ghost plan: Plan)
      returns (r: Result<string, Failure>, ghost t: seq<Event>)
    requires plan.Flat? && plan.hvac == Some(p)
    requires s.Valid()
    modifies s`log, s`now, s`ticks
    ensures s.Valid()
    ensures s.log == old(s.log) + t
    ensures SentResult(t) == Some(r) && Carries(t, plan, HvacKind) && s.now >= old(s.now)
  {
    var failure := ControlHeaders(s);
    if failure.Some? {
      return Err(failure.value), [HeadersFailed(failure.value)];
    }
    var reply := s.postReplies(|s.log|);
    s.Elapse(0);
    s.log := s.log + [PostHvac(p, reply)];
    return Unwrap(reply), [PostHvac(p, reply)];
  }

  /** The second half of `_schedule_ev5_flat`: the requests, once both payloads exist. */
  method SendFlat(s: Session, charge: Option<ChargePayload>, hvac: Option<HvacPayload>)
      returns (r: Outcome, ghost t: Trace)
    requires charge.Some? || hvac.Some?
    requires s.Valid()
    modifies s
    ensures s.Valid()
    ensures s.log == old(s.log) + Requests(t)
    ensures FollowsFlat(Flat(charge, hvac), t, r)
    ensures s.now >= old(s.now) && WaitedEnough(t, r, s.now - old(s.now))
  {
    hide RetriedPoll, SentResult, Carries, FewReads, SettledBy, Session.Valid;
    ghost var plan := Flat(charge, hvac);
    t := SILENT;
    var chargeId, hvacId := "", "";
    if charge.Some? {
      var posted;
      ghost var sent;
      posted, sent := SendCharge(s, charge.value, plan);
      t := t.(charge := sent);
      if posted.Err? {
        return Err(FromServer(posted.error)), t;
      }
      chargeId := posted.value;
    }
    if hvac.Some? && charge.Some? {
      var state;
      ghost var polls, cut;
      state, polls, cut := PollRetried(s, chargeId, POLL_TIMEOUT);
      t := t.(polls := polls, poll := Some(Poll(state, cut)));
      if state.Err? {
        return Err(FromServer(state.error)), t;
      }
      if state.value != Succeeded {
        if state.value == TimedOut || state.value == Pending {
          return Err(ChannelBusy(chargeId, state.value)), t;
        }
        return Err(ChargeEnded(chargeId, state.value)), t;
      }
    }
    if hvac.Some? {
      var posted;
      ghost var sent;
      posted, sent := SendHvac(s, hvac.value, plan);
      t := t.(hvac := sent);
      if posted.Err? {
        if posted.error == DuplicateError && charge.Some? {
          return Err(ClimateRefused(chargeId)), t;
        }
        return Err(FromServer(posted.error)), t;
      }
      hvacId := posted.value;
    }
    r := Ok(if charge.Some? then chargeId else hvacId);
  }

  /** What the charge payload reads is what the climate fill leaves alone, and the other
      way round: the guard and both payloads see the options as the plan has them. */
  lemma FlatStages(o: Options, car: Car, shared: bool)
    requires car.flat
    ensures var c, k := ChargeActive(o), ClimateActive(o);
            var o1 := Fill(o, car.state, c, false, shared);
            var o2 := Fill(o1, car.state, false, k, shared);
            && (c ==> ChargeComplete(o1) && BuildCharge(o1) == BuildCharge(o2))
            && (k ==> ClimateComplete(o2))
            && HasTemperature(o1, car.state) == HasTemperature(o, car.state)
            && o2 == Filled(o, car, shared)
            && (c || o1 == o) && (k || o2 == o1)
  {
  }

  /** The first half of the flat write: fill the active scopes, guard, build the payloads. */
  method PrepareFlat(options: ScheduleOptions, car: Car)
      returns (r: Result<(Option<ChargePayload>, Option<HvacPayload>), ScheduleError>)
    requires car.flat
    modifies options, options.firstDeparture, options.secondDeparture
    ensures match PlanFor(old(options.View()), car, old(options.Shared()))
            case Refuse(e) => r == Err(e)
            case Flat(charge, hvac) => r == Ok((charge, hvac)) && (charge.Some? || hvac.Some?)
            case Combined(_) => false
    ensures r.Err? ==> r.error == NoChanges || r.error == NoTemperature
    ensures options.View() == After(old(options.View()), car, old(options.Shared()))
    ensures options.Shared() == old(options.Shared())
    ensures old(options.firstDeparture) != null ==> options.firstDeparture == old(options.firstDeparture)
    ensures old(options.secondDeparture) != null ==> options.secondDeparture == old(options.secondDeparture)
    ensures old(options.firstDeparture) == null && options.firstDeparture != null ==> fresh(options.firstDeparture)
    ensures old(options.secondDeparture) == null && options.secondDeparture != null ==> fresh(options.secondDeparture)
  {
    FlatStages(options.View(), car, options.Shared());
    hide BuildCharge, BuildHvac, Fill, HasTemperature, ChargeActive, ClimateActive, ChargeComplete, ClimateComplete;
    var chargeActive, climateActive := ChargeActive(options.View()), ClimateActive(options.View());
    if !chargeActive && !climateActive {
      return Err(NoChanges);
    }
    var charge, hvac := None, None;
    if chargeActive {
      var _ := FillScheduleOptions(options, car.state, true, false);
      charge := Some(BuildCharge(options.View()));
    }
    if climateActive {
      if !HasTemperature(options.View(), car.state) {
        return Err(NoTemperature);
      }
      var _ := FillScheduleOptions(options, car.state, false, true);
      hvac := Some(BuildHvac(options.View(), WireUnit(car.unit)));
    }
    return Ok((charge, hvac));
  }

  /** The same for the combined write, which always fills and sends both scopes. */
  method PrepareCombined(options: ScheduleOptions, car: Car) returns (r: Result<CombinedPayload, ScheduleError>)
    requires !car.flat
    modifies options, options.firstDeparture, options.secondDeparture
    ensures match PlanFor(old(options.View()), car, old(options.Shared()))
            case Refuse(e) => r == Err(e)
            case Combined(p) => r == Ok(p)
            case Flat(_, _) => false
    ensures r.Err? ==> r.error == NoTemperature
    ensures options.View() == After(old(options.View()), car, old(options.Shared()))
    ensures options.Shared() == old(options.Shared())
    ensures old(options.firstDeparture) != null ==> options.firstDeparture == old(options.firstDeparture)
    ensures old(options.secondDeparture) != null ==> options.secondDeparture == old(options.secondDeparture)
    ensures old(options.firstDeparture) == null && options.firstDeparture != null ==> fresh(options.firstDeparture)
    ensures old(options.secondDeparture) == null && options.secondDeparture != null ==> fresh(options.secondDeparture)
  {
    if !HasTemperature(options.View(), car.state) {
      return Err(NoTemperature);
    }
    FillCompletes(options.View(), car.state, true, true, options.Shared());
    hide Fill, HasTemperature, BuildCombined, ChargeComplete, ClimateComplete;
    var _ := FillScheduleOptions(options, car.state, true, true);
    return Ok(BuildCombined(options.View(), WireUnit(car.unit)));
  }

  /** One run of the function under the retry decorator. */
  method Attempt(s: Session, vehicle: Vehicle, options: ScheduleOptions) returns (r: Outcome, ghost t: Trace)
    requires s.Valid()
    modifies s, options, options.firstDeparture, options.secondDeparture
    ensures s.Valid()
    ensures s.log == old(s.log) + Requests(t)
    ensures CarOf(vehicle) == old(CarOf(vehicle))
    ensures Follows(PlanFor(old(options.View()), CarOf(vehicle), old(options.Shared())), t, r)
    ensures s.now >= old(s.now) && WaitedEnough(t, r, s.now - old(s.now))
    ensures options.View() == After(old(options.View()), CarOf(vehicle), old(options.Shared()))
    ensures options.Shared() == old(options.Shared())
    ensures old(options.firstDeparture) != null ==> options.firstDeparture == old(options.firstDeparture)
    ensures old(options.secondDeparture) != null ==> options.secondDeparture == old(options.secondDeparture)
    ensures old(options.firstDeparture) == null && options.firstDeparture != null ==> fresh(options.firstDeparture)
    ensures old(options.secondDeparture) == null && options.secondDeparture != null ==> fresh(options.secondDeparture)
  {
    t := SILENT;
    var car := CarOf(vehicle);
    hide FollowsFlat, PlanFor, After, Carries, SentResult, Session.Valid;
    if car.flat {
      var prepared := PrepareFlat(options, car);
      if prepared.Err? {
        return Err(prepared.error), t;
      }
      r, t := SendFlat(s, prepared.value.0, prepared.value.1);
    } else {
      var prepared := PrepareCombined(options, car);
      if prepared.Err? {
        return Err(prepared.error), t;
      }
      var posted;
      ghost var sent;
      posted, sent := SendCombined(s, prepared.value);
      t := t.(combined := sent);
      r := FromSent(posted);
    }
  }

  // ----- the whole call

  datatype Run = Run(trace: Trace, outcome: Outcome)

  const DEVICE_ERROR: Outcome := Err(FromServer(DeviceIdError))

  /** The log of a call: its attempts, with the device registration between them. */
  function CallLog(runs: seq<Run>, between: seq<Event>): seq<Event>
    requires 1 <= |runs| <= 2
  {
    if |runs| == 1 then Requests(runs[0].trace) + between
    else Requests(runs[0].trace) + between + Requests(runs[1].trace)
  }

  /** One attempt, or two of the same plan around a registration that followed a device-id
      error; a failed registration ends the call. */
  predicate SafeCall(plan: Plan, runs: seq<Run>, between: seq<Event>, r: Outcome) {
    && 1 <= |runs| <= 2
    && (forall i | 0 <= i < |runs| :: Follows(plan, runs[i].trace, runs[i].outcome))
    && (runs[0].outcome == DEVICE_ERROR <==> between != [])
    && (between == [] ==> |runs| == 1 && r == runs[0].outcome)
    && (between != [] ==>
          && |between| == 1 && between[0].Register?
          && match between[0].registration
             case Registered(_) => |runs| == 2 && r == runs[1].outcome
             case RegisterRefused(f) => |runs| == 1 && r == Err(FromServer(f)))
  }

  lemma DeviceErrorMeansSent(o: Options, car: Car, shared: bool, t: Trace)
    requires Follows(PlanFor(o, car, shared), t, DEVICE_ERROR)
    ensures !PlanFor(o, car, shared).Refuse?
  {
  }

  lemma OneAttempt(plan: Plan, t: Trace, r: Outcome)
    requires Follows(plan, t, r) && r != DEVICE_ERROR
    ensures SafeCall(plan, [Run(t, r)], [], r) && CallLog([Run(t, r)], []) == Requests(t)
  {
    hide Follows;
  }

  lemma NoSecondAttempt(plan: Plan, t: Trace, f: Failure)
    requires Follows(plan, t, DEVICE_ERROR)
    ensures SafeCall(plan, [Run(t, DEVICE_ERROR)], [Register(RegisterRefused(f))], Err(FromServer(f)))
    ensures CallLog([Run(t, DEVICE_ERROR)], [Register(RegisterRefused(f))])
         == Requests(t) + [Register(RegisterRefused(f))]
  {
    hide Follows, Requests;
  }

  lemma TwoAttempts(plan: Plan, t: Trace, u: Trace, device: string, r: Outcome)
    requires Follows(plan, t, DEVICE_ERROR) && Follows(plan, u, r)
    ensures SafeCall(plan, [Run(t, DEVICE_ERROR), Run(u, r)], [Register(Registered(device))], r)
    ensures CallLog([Run(t, DEVICE_ERROR), Run(u, r)], [Register(Registered(device))])
         == Requests(t) + [Register(Registered(device))] + Requests(u)
  {
    hide Follows, Requests;
  }

  /** `schedule_charging_and_climate` behind `_retry_on_device_id_error`. */
  method ScheduleChargingAndClimate(s: Session, vehicle: Vehicle, options: ScheduleOptions)
      returns (r: Outcome, ghost runs: seq<Run>, ghost between: seq<Event>)
    requires s.Valid()
    modifies s, options, options.firstDeparture, options.secondDeparture
    ensures s.Valid()
    ensures SafeCall(PlanFor(old(options.View()), CarOf(vehicle), old(options.Shared())), runs, between, r)
    ensures |runs| > 0 && WaitedEnough(runs[|runs| - 1].trace, r, s.now - old(s.now))
    ensures s.log == old(s.log) + CallLog(runs, between)
    ensures options.View() == After(old(options.View()), CarOf(vehicle), old(options.Shared()))
  {
    hide PlanFor, After, Follows, SafeCall, Requests, CallLog, CarOf, Session.Valid;
    ghost var o, shared, car := options.View(), options.Shared(), CarOf(vehicle);
    ghost var plan := PlanFor(o, car, shared);
    ghost var t;
    r, t := Attempt(s, vehicle, options);
    runs, between := [Run(t, r)], [];
    if r != DEVICE_ERROR {
      OneAttempt(plan, t, r);
      return;
    }
    DeviceErrorMeansSent(o, car, shared, t);
    RetrySendsTheSame(o, car, shared);
    var g := s.RegisterDevice();
    between := [Register(g)];
    match g
    case RegisterRefused(f) =>
      r := Err(FromServer(f));
      NoSecondAttempt(plan, t, f);
    case Registered(device) =>
      ghost var u;
      r, u := Attempt(s, vehicle, options);
      runs := [Run(t, DEVICE_ERROR), Run(u, r)];
      TwoAttempts(plan, t, u, device, r);
  }

  // ----- what a safe call guarantees

  function Count(log: seq<Event>, k: Kind): nat {
    if log == [] then 0 else (if Is(log[0], k) then 1 else 0) + Count(log[1..], k)
  }

  lemma {:induction false} CountConcat(a: seq<Event>, b: seq<Event>, k: Kind)
    ensures Count(a + b, k) == Count(a, k) + Count(b, k)
  {
    if a == [] {
      assert a + b == b;
    } else {
      assert (a + b)[1..] == a[1..] + b;
      CountConcat(a[1..], b, k);
    }
  }

  lemma {:induction false} CountAtMost(log: seq<Event>, k: Kind)
    ensures Count(log, k) <= |log|
    ensures (forall i | 0 <= i < |log| :: !Is(log[i], k)) ==> Count(log, k) == 0
  {
    if log != [] {
      CountAtMost(log[1..], k);
      assert (forall i | 0 <= i < |log| :: !Is(log[i], k)) ==> forall i | 0 <= i < |log| - 1 :: !Is(log[1..][i], k);
    }
  }

  /** The polls of an attempt are reads of its accepted charge request's record. */
  lemma PollsAreReads(plan: Plan, t: Trace, r: Outcome)
    requires Follows(plan, t, r) && t.polls != []
    ensures plan.Flat? && |t.charge| == 1 && t.charge[0].PostCharge? && t.charge[0].reply.Accepted? && t.poll.Some?
    ensures PollOutcome(t.polls, t.charge[0].reply.msgId, t.poll.value.result)
  {
    hide RetriedPoll, PollOutcome, EndsWithHvac;
    RetriedPollOutcome(t.polls, SentResult(t.charge).value.value, t.poll.value.result, t.poll.value.cut);
  }

  lemma CarriedCount(events: seq<Event>, plan: Plan, sent: Kind, k: Kind)
    requires Carries(events, plan, sent)
    ensures Count(events, k) <= if k == sent then |events| else 0
  {
    CountAtMost(events, k);
    hide Count, Planned;
  }

  lemma PollsHaveNoPost(plan: Plan, t: Trace, r: Outcome, k: Kind)
    requires Follows(plan, t, r)
    ensures Count(t.polls, k) == 0
  {
    hide Follows;
    if t.polls != [] {
      PollsAreReads(plan, t, r);
    }
    CountAtMost(t.polls, k);
  }

  /** What every attempt has in common: its parts carry planned requests of their kind. */
  lemma PartsCarry(plan: Plan, t: Trace, r: Outcome)
    requires Follows(plan, t, r)
    ensures Carries(t.combined, plan, CombinedKind) && Carries(t.charge, plan, ChargeKind)
    ensures Carries(t.hvac, plan, HvacKind)
    ensures |t.combined| <= 1 && |t.charge| <= 1 && |t.hvac| <= 1
  {
    hide RetriedPoll, Planned;
  }

  lemma OnePerAttempt(plan: Plan, t: Trace, r: Outcome, k: Kind)
    requires Follows(plan, t, r)
    ensures Count(Requests(t), k) <= 1
  {
    hide Follows, Carries, Count;
    PartsCarry(plan, t, r);
    PollsHaveNoPost(plan, t, r, k);
    CarriedCount(t.combined, plan, CombinedKind, k);
    CarriedCount(t.charge, plan, ChargeKind, k);
    CarriedCount(t.hvac, plan, HvacKind, k);
    CountConcat(t.combined + t.charge + t.polls, t.hvac, k);
    CountConcat(t.combined + t.charge, t.polls, k);
    CountConcat(t.combined, t.charge, k);
  }

  /** No call posts to an endpoint more than twice. */
  lemma AtMostTwoPosts(plan: Plan, runs: seq<Run>, between: seq<Event>, r: Outcome, k: Kind)
    requires SafeCall(plan, runs, between, r)
    ensures Count(CallLog(runs, between), k) <= 2
  {
    hide Follows, Count;
    OnePerAttempt(plan, runs[0].trace, runs[0].outcome, k);
    CountConcat(Requests(runs[0].trace), between, k);
    CountAtMost(between, k);
    if |runs| == 2 {
      OnePerAttempt(plan, runs[1].trace, runs[1].outcome, k);
      CountConcat(Requests(runs[0].trace) + between, Requests(runs[1].trace), k);
    }
  }

  lemma RefusedAttempt(plan: Plan, t: Trace, r: Outcome)
    requires Follows(plan, t, r) && plan.Refuse?
    ensures t == SILENT && Requests(t) == [] && r == Err(plan.error)
  {
  }

  /** A refused plan ends the call with its error and without a request. */
  lemma RefusedMeansSilent(plan: Plan, runs: seq<Run>, between: seq<Event>, r: Outcome)
    requires SafeCall(plan, runs, between, r)
    requires plan.Refuse? && plan.error != FromServer(DeviceIdError)
    ensures r == Err(plan.error) && CallLog(runs, between) == []
  {
    hide Follows;
    RefusedAttempt(plan, runs[0].trace, runs[0].outcome);
  }

  lemma TracePlanned(plan: Plan, t: Trace, r: Outcome, e: Event)
    requires Follows(plan, t, r) && e in Requests(t)
    ensures Planned(plan, e)
  {
    PartsCarry(plan, t, r);
    hide Follows;
    assert e in t.combined || e in t.charge || e in t.polls || e in t.hvac;
    if e in t.polls {
      PollsAreReads(plan, t, r);
    }
  }

  /** First attempt or retry, every request of a call carries the planned payload. */
  lemma EveryPostIsPlanned(plan: Plan, runs: seq<Run>, between: seq<Event>, r: Outcome, e: Event)
    requires SafeCall(plan, runs, between, r) && e in CallLog(runs, between)
    ensures Planned(plan, e)
  {
    hide Follows;
    if e in Requests(runs[0].trace) {
      TracePlanned(plan, runs[0].trace, runs[0].outcome, e);
    } else if e !in between {
      TracePlanned(plan, runs[1].trace, runs[1].outcome, e);
    }
  }

  /** A read of the records whose first known result for the action is success. */
  predicate ReadSuccess(e: Event, id: string) {
    e.ReadRecords? && e.actionId == id && e.records.Records? && FirstKnownIs(e.records.records, id, Success)
  }

  /** The climate request at `k` comes after an accepted charge request at `i` and the read
      at `j` that found this charge's record successful, with nothing but polling of it in
      between. */
  predicate Cleared(log: seq<Event>, i: nat, j: nat, k: nat) {
    && i < j < k < |log|
    && log[i].PostCharge? && log[i].reply.Accepted?
    && ReadSuccess(log[j], log[i].reply.msgId)
    && PollEvents(log[i + 1..k], log[i].reply.msgId)
  }

  ghost predicate HasClearance(log: seq<Event>, k: nat) {
    exists i: nat, j: nat :: Cleared(log, i, j, k)
  }

  /** In a two-scope attempt a climate request comes last, after a poll that succeeded. */
  lemma HvacIsLast(plan: Plan, t: Trace, r: Outcome, k: nat)
    requires Follows(plan, t, r) && plan.Flat? && plan.charge.Some? && plan.hvac.Some?
    requires k < |Requests(t)| && Requests(t)[k].PostHvac?
    ensures Requests(t) == t.charge + t.polls + t.hvac && |t.charge| == |t.hvac| == 1 && k == |t.polls| + 1 > 1
    ensures t.charge[0].PostCharge? && t.charge[0].reply.Accepted?
    ensures ReadSuccess(t.polls[|t.polls| - 1], t.charge[0].reply.msgId)
    ensures PollEvents(t.polls, t.charge[0].reply.msgId)
  {
    hide FirstKnownIs, StatusOf;
    var log := Requests(t);
    assert log == t.charge + t.polls + t.hvac;
    if t.polls != [] {
      PollsAreReads(plan, t, r);
    }
    if SentResult(t.charge).value.Ok? {
      RetriedPollOutcome(t.polls, SentResult(t.charge).value.value, t.poll.value.result, t.poll.value.cut);
      var e := t.polls[|t.polls| - 1];
      if e.ReadRecords? && e.records.Records? {
        StatusIff(e.records.records, e.actionId);
      }
    }
    hide RetriedPoll;
    assert log[0] == t.charge[0];
    assert forall i | 0 < i <= |t.polls| :: log[i] == t.polls[i - 1];
  }

  lemma TraceCleared(plan: Plan, t: Trace, r: Outcome, k: nat)
    requires Follows(plan, t, r) && plan.Flat? && plan.charge.Some? && plan.hvac.Some?
    requires k < |Requests(t)| && Requests(t)[k].PostHvac?
    ensures HasClearance(Requests(t), k)
  {
    HvacIsLast(plan, t, r, k);
    PollsAreReads(plan, t, r);
    var log, n := Requests(t), |t.polls|;
    assert log[1..k] == t.polls;
    assert log[n] == t.polls[n - 1];
    hide Requests, PollEvents, Follows, PollOutcome, ReadSuccess;
    assert Cleared(log, 0, n, k);
  }

  lemma ClearedShift(head: seq<Event>, log: seq<Event>, tail: seq<Event>, k: nat)
    requires HasClearance(log, k)
    ensures HasClearance(head + log + tail, |head| + k)
  {
    var i: nat, j: nat :| Cleared(log, i, j, k);
    var h, all := |head|, head + log + tail;
    assert all[h + i] == log[i] && all[h + j] == log[j];
    assert all[h + i + 1..h + k] == log[i + 1..k];
    hide PollEvents, ReadSuccess;
    assert Cleared(all, h + i, h + j, h + k);
  }

  lemma BetweenIsNoPost(plan: Plan, runs: seq<Run>, between: seq<Event>, r: Outcome)
    requires SafeCall(plan, runs, between, r)
    ensures var n := |Requests(runs[0].trace)|;
            forall i | n <= i < n + |between| :: CallLog(runs, between)[i].Register?
  {
    hide Follows, Requests;
    if between != [] {
      var n := |Requests(runs[0].trace)|;
      assert CallLog(runs, between)[n] == between[0];
    }
  }

  /** A climate request in an attempt's part of a log is cleared in the whole log. */
  lemma PartCleared(plan: Plan, t: Trace, r: Outcome, head: seq<Event>, tail: seq<Event>, k: nat)
    requires Follows(plan, t, r) && plan.Flat? && plan.charge.Some? && plan.hvac.Some?
    requires k < |Requests(t)| && (head + Requests(t) + tail)[|head| + k].PostHvac?
    ensures HasClearance(head + Requests(t) + tail, |head| + k)
  {
    hide Follows, HasClearance, Requests;
    assert (head + Requests(t) + tail)[|head| + k] == Requests(t)[k];
    TraceCleared(plan, t, r, k);
    ClearedShift(head, Requests(t), tail, k);
  }

  lemma LogLength(runs: seq<Run>, between: seq<Event>)
    requires 1 <= |runs| <= 2
    ensures |CallLog(runs, between)|
         == |Requests(runs[0].trace) + between| + if |runs| == 1 then 0 else |Requests(runs[1].trace)|
  {
    hide Requests;
  }

  /** A post after the first attempt's requests is a second attempt's. */
  lemma InSecondRun(plan: Plan, runs: seq<Run>, between: seq<Event>, r: Outcome, k: nat)
    requires SafeCall(plan, runs, between, r)
    requires |Requests(runs[0].trace)| <= k < |CallLog(runs, between)| && CallLog(runs, between)[k].PostHvac?
    ensures |runs| == 2 && k >= |Requests(runs[0].trace) + between|
  {
    hide Follows, Requests;
    BetweenIsNoPost(plan, runs, between, r);
    LogLength(runs, between);
    hide SafeCall, CallLog;
  }

  lemma FirstPart(runs: seq<Run>, between: seq<Event>) returns (rest: seq<Event>)
    requires 1 <= |runs| <= 2
    ensures CallLog(runs, between) == [] + Requests(runs[0].trace) + rest
  {
    hide Requests;
    rest := if |runs| == 1 then between else between + Requests(runs[1].trace);
  }

  lemma SecondPart(runs: seq<Run>, between: seq<Event>)
    requires |runs| == 2
    ensures CallLog(runs, between) == (Requests(runs[0].trace) + between) + Requests(runs[1].trace) + []
  {
    hide Requests;
  }

  /** A two-scope call sends the climate request only after this attempt's charge action
      was read as done, in the first attempt and in the retry alike. */
  lemma ClimateAfterSettledCharge(plan: Plan, runs: seq<Run>, between: seq<Event>, r: Outcome, k: nat)
    requires SafeCall(plan, runs, between, r) && plan.Flat? && plan.charge.Some? && plan.hvac.Some?
    requires k < |CallLog(runs, between)| && CallLog(runs, between)[k].PostHvac?
    ensures HasClearance(CallLog(runs, between), k)
  {
    hide Follows, HasClearance, Requests, Cleared, CallLog;
    assert forall i | 0 <= i < |runs| :: Follows(plan, runs[i].trace, runs[i].outcome);
    var a := Requests(runs[0].trace);
    if k < |a| {
      var rest := FirstPart(runs, between);
      hide SafeCall;
      PartCleared(plan, runs[0].trace, runs[0].outcome, [], rest, k);
    } else {
      InSecondRun(plan, runs, between, r, k);
      SecondPart(runs, between);
      hide SafeCall;
      PartCleared(plan, runs[1].trace, runs[1].outcome, a + between, [], k - |a + between|);
    }
  }

  // ----- what an outcome tells the caller

  /** The last request of the log raised `f`. */
  predicate LastFailed(log: seq<Event>, f: Failure) {
    && log != []
    && match log[|log| - 1]
       case HeadersFailed(g) => f == g
       case PostCharge(_, Refused(g)) => f == g
       case PostHvac(_, Refused(g)) => f == g
       case PostCombined(_, Refused(g)) => f == g
       case ReadRecords(_, ReadRefused(g)) => f == g
       case Register(RegisterRefused(g)) => f == g
       case _ => false
  }

  /** A message id is returned only when every planned request was accepted, and it is the
      first one's; a failure that is passed on is the last request's. */
  lemma OutcomeOfAttempt(plan: Plan, t: Trace, r: Outcome)
    requires Follows(plan, t, r) && !plan.Refuse?
    ensures match r
            case Ok(id) =>
              if plan.Combined? then SentResult(t.combined) == Some(Ok(id))
              else && (plan.charge.Some? ==> SentResult(t.charge) == Some(Ok(id)))
                   && (plan.hvac.Some? ==> SentResult(t.hvac).Some? && SentResult(t.hvac).value.Ok?)
                   && (plan.charge.None? ==> SentResult(t.hvac) == Some(Ok(id)))
            case Err(FromServer(f)) => LastFailed(Requests(t), f)
            case Err(ChannelBusy(id, st)) => SentResult(t.charge) == Some(Ok(id)) && t.hvac == [] && st == TimedOut
            case Err(ChargeEnded(id, st)) =>
              SentResult(t.charge) == Some(Ok(id)) && t.hvac == [] && (st == Failed || st == UnknownOrder)
            case Err(ClimateRefused(id)) =>
              SentResult(t.charge) == Some(Ok(id)) && LastFailed(Requests(t), DuplicateError)
            case Err(_) => false
  {
    if t.poll.Some? {
      RetriedPollOutcome(t.polls, SentResult(t.charge).value.value, t.poll.value.result, t.poll.value.cut);
    }
    hide RetriedPoll, SettledBy;
    var log := Requests(t);
    if t.hvac != [] {
      assert log[|log| - 1] == t.hvac[|t.hvac| - 1];
    } else if t.polls != [] {
      assert log[|log| - 1] == t.polls[|t.polls| - 1];
    }
  }

  /** The post of `kind` that these events hold was accepted as `id`. */
  predicate AcceptedAs(events: seq<Event>, k: Kind, id: string) {
    && |events| == 1 && Is(events[0], k)
    && match events[0]
       case PostCharge(_, reply) => reply == Accepted(id)
       case PostHvac(_, reply) => reply == Accepted(id)
       case PostCombined(_, reply) => reply == Accepted(id)
       case _ => false
  }

  lemma CarriedAccepted(events: seq<Event>, plan: Plan, k: Kind)
    requires Carries(events, plan, k) && SentResult(events).Some? && SentResult(events).value.Ok?
    ensures AcceptedAs(events, k, SentResult(events).value.value)
  {
    hide Planned;
  }

  /** The plan covers exactly the scopes that the caller activated. */
  lemma PlanScopes(o: Options, car: Car, shared: bool)
    ensures var plan := PlanFor(o, car, shared);
            && (plan.Flat? ==> && car.flat && (ChargeActive(o) || ClimateActive(o))
                               && (plan.charge.Some? <==> ChargeActive(o)) && (plan.hvac.Some? <==> ClimateActive(o)))
            && (plan.Combined? ==> !car.flat)
  {
  }

  /** A call that returns had every scope that the caller asked for accepted in its last
      attempt, and returns the charge request's id if there is one. */
  lemma ReturnMeansAccepted(o: Options, car: Car, shared: bool, runs: seq<Run>, between: seq<Event>, id: string)
    requires SafeCall(PlanFor(o, car, shared), runs, between, Ok(id))
    ensures var t := runs[|runs| - 1].trace;
            if !car.flat then AcceptedAs(t.combined, CombinedKind, id)
            else && (ChargeActive(o) || ClimateActive(o))
                 && (ChargeActive(o) ==> AcceptedAs(t.charge, ChargeKind, id))
                 && (ClimateActive(o) ==>
                       exists hvacId :: AcceptedAs(t.hvac, HvacKind, hvacId) && (!ChargeActive(o) ==> hvacId == id))
  {
    var plan, last := PlanFor(o, car, shared), runs[|runs| - 1];
    PlanScopes(o, car, shared);
    hide PlanFor, Follows;
    assert Follows(plan, last.trace, last.outcome) && last.outcome == Ok(id);
    if plan.Refuse? {
      RefusedAttempt(plan, last.trace, last.outcome);
    } else {
      OutcomeOfAttempt(plan, last.trace, last.outcome);
      PartsCarry(plan, last.trace, last.outcome);
      hide Carries, SentResult, AcceptedAs;
      if plan.Combined? {
        CarriedAccepted(last.trace.combined, plan, CombinedKind);
      } else {
        if plan.charge.Some? {
          CarriedAccepted(last.trace.charge, plan, ChargeKind);
        }
        if plan.hvac.Some? {
          CarriedAccepted(last.trace.hvac, plan, HvacKind);
        }
      }
    }
  }

  /** Each error of a flat call and what it tells about the log; only a call with both
      scopes has the errors about an applied charge. */
  lemma FlatErrorsIff(plan: Plan, t: Trace, r: Outcome)
    requires Follows(plan, t, r) && plan.Flat?
    ensures var two := plan.charge.Some? && plan.hvac.Some?;
            && (r.Err? && !r.error.FromServer? ==> two)
            && (r.Err? && r.error.ClimateRefused? <==> two && LastFailed(t.hvac, DuplicateError))
            && (r.Err? && r.error.ChannelBusy? <==> two && t.poll.Some? && t.poll.value.result == Ok(TimedOut))
            && (r.Err? && r.error.ChargeEnded? <==> two && t.poll.Some? && (t.poll.value.result == Ok(Failed)
                                                                            || t.poll.value.result == Ok(UnknownOrder)))
            && (t.hvac != [] && two ==> t.poll.Some? && t.poll.value.result == Ok(Succeeded))
            && (t.poll.Some? ==> two && Reads(t.polls) <= 6 + Registers(t.polls))
  {
    if t.poll.Some? {
      RetriedPollOutcome(t.polls, SentResult(t.charge).value.value, t.poll.value.result, t.poll.value.cut);
      assert PollLimit(15) == 3;
    }
    hide RetriedPoll, Answers, Reads, Registers, SettledBy, FailedBy, PollEvents;
  }

  // ----- what is planned, field by field

  /** When a call is refused, and which of the two forms it has otherwise: flat for an
      electric car with the newer head unit. */
  lemma PlanIff(o: Options, car: Car, shared: bool)
    ensures var plan := PlanFor(o, car, shared);
            var climate := o.first.Some? || o.second.Some? || o.climate.Some? || o.temperature.Some? || o.defrost.Some?;
            var known := || o.temperature.Some?
                         || car.state.first.temperature.Some? || car.state.second.temperature.Some?
                         || (o.first.Some? && o.first.value.temperature.Some?)
                         || (o.second.Some? && o.second.value.temperature.Some?);
            && (plan == Refuse(NoChanges) <==> car.flat && o == NO_OPTIONS)
            && (plan == Refuse(NoTemperature) <==> (car.flat ==> climate) && !known)
            && (plan.Refuse? ==> plan.error == NoChanges || plan.error == NoTemperature)
            && (plan.Flat? ==> car.flat) && (plan.Combined? ==> !car.flat)
            && (plan.Flat? ==> (plan.hvac.Some? <==> climate))
  {
    InactiveIff(o);
    hide BuildCharge, BuildHvac, BuildCombined, Filled;
  }

  /** What the attempt will send for a field: the order of precedence. */
  function Wanted(o: Options, car: Car, shared: bool, name: Label): Value {
    var own := Owner(name, shared);
    Resolve(OptionAt(o, own), TopAt(o, own), VehicleAt(car.state, own), DefaultAt(own))
  }

  predicate SaysTime(w: WireTime, v: Value) {
    v.At? && w == PrintTime(v.time)
  }

  predicate SaysFlag(n: int, v: Value, on: int, off: int) {
    n == if v == Flag(true) then on else off
  }

  predicate SaysClimate(h: HvacSet, o: Options, car: Car, shared: bool, n: nat) {
    && SaysFlag(h.airCtrl, Wanted(o, car, shared, OfDeparture(n, ClimateEnabled)), 1, 0)
    && h.unit == (if car.unit == Some(Fahrenheit) then 1 else 0)
    && Wanted(o, car, shared, OfDeparture(n, Temperature)).Degrees?
    && h.temperature == PrintTenths(WireTemperature(Wanted(o, car, shared, OfDeparture(n, Temperature)).number, h.unit))
    && Wanted(o, car, shared, OfDeparture(n, Defrost)) == Flag(h.defrost)
  }

  predicate SaysSlot(enabled: bool, days: seq<int>, time: WireTime, o: Options, car: Car, shared: bool, n: nat) {
    && Wanted(o, car, shared, OfDeparture(n, Enabled)) == Flag(enabled)
    && Wanted(o, car, shared, OfDeparture(n, Days)) == DayList(days)
    && SaysTime(time, Wanted(o, car, shared, OfDeparture(n, DepartureTime)))
  }

  /** Departure `n` of the filled options. */
  function FilledDeparture(o: Options, car: Car, shared: bool, charge: bool, n: nat): Option<Departure> {
    var f := Fill(o, car.state, charge, true, shared);
    if n == 1 then f.first else f.second
  }

  lemma FilledFieldIsWanted(o: Options, car: Car, shared: bool, charge: bool, n: nat, field: Field)
    requires Aliasing(o, shared) && 1 <= n <= 2
    ensures var d := FilledDeparture(o, car, shared, charge, n);
            CompleteDeparture(d) && FieldOf(d.value, field) == Some(Wanted(o, car, shared, OfDeparture(n, field)))
  {
    FillCompletes(o, car.state, charge, true, shared);
    FieldsFollowTheOrder(o, car.state, charge, true, shared, OfDeparture(n, field));
    hide Fill, Resolve, TopAt, VehicleAt, DefaultAt, Owner, FieldOf;
  }

  /** The slots of a departure whose fields are the wanted ones. */
  lemma SlotsSay(d: Departure, o: Options, car: Car, shared: bool, n: nat)
    requires CompleteDeparture(Some(d))
    requires forall field :: FieldOf(d, field) == Some(Wanted(o, car, shared, OfDeparture(n, field)))
    ensures var c, h := BuildChargeSlot(d, WireUnit(car.unit)), BuildHvacSlot(d, WireUnit(car.unit));
            && SaysSlot(c.enabled, c.days, c.time, o, car, shared, n) && SaysClimate(c.hvac, o, car, shared, n)
            && SaysSlot(h.flag == 1, h.days, h.time, o, car, shared, n) && SaysClimate(h.hvac, o, car, shared, n)
            && (h.flag == 0 || h.flag == 1)
  {
    hide Wanted, PrintTime, PrintTenths, WireTemperature;
    SlotsMean(d, WireUnit(car.unit));
    hide BuildChargeSlot, BuildHvacSlot;
    assert FieldOf(d, Enabled) == Some(Wanted(o, car, shared, OfDeparture(n, Enabled)));
    assert FieldOf(d, Days) == Some(Wanted(o, car, shared, OfDeparture(n, Days)));
    assert FieldOf(d, DepartureTime) == Some(Wanted(o, car, shared, OfDeparture(n, DepartureTime)));
    assert FieldOf(d, ClimateEnabled) == Some(Wanted(o, car, shared, OfDeparture(n, ClimateEnabled)));
    assert FieldOf(d, Temperature) == Some(Wanted(o, car, shared, OfDeparture(n, Temperature)));
    assert FieldOf(d, Defrost) == Some(Wanted(o, car, shared, OfDeparture(n, Defrost)));
  }

  predicate ChargeSlotSays(c: ChargeSlot, o: Options, car: Car, shared: bool, n: nat) {
    SaysSlot(c.enabled, c.days, c.time, o, car, shared, n) && SaysClimate(c.hvac, o, car, shared, n)
  }

  predicate HvacSlotSays(h: HvacSlot, o: Options, car: Car, shared: bool, n: nat) {
    && SaysSlot(h.flag == 1, h.days, h.time, o, car, shared, n) && SaysClimate(h.hvac, o, car, shared, n)
    && (h.flag == 0 || h.flag == 1)
  }

  /** A filled departure's slots say what was wanted. */
  lemma FilledSlotSays(o: Options, car: Car, shared: bool, charge: bool, n: nat)
    requires Aliasing(o, shared) && 1 <= n <= 2
    ensures var d := FilledDeparture(o, car, shared, charge, n);
            && CompleteDeparture(d)
            && ChargeSlotSays(BuildChargeSlot(d.value, WireUnit(car.unit)), o, car, shared, n)
            && HvacSlotSays(BuildHvacSlot(d.value, WireUnit(car.unit)), o, car, shared, n)
  {
    hide FilledDeparture, Wanted, FieldOf;
    FilledFieldIsWanted(o, car, shared, charge, n, Enabled);
    var d := FilledDeparture(o, car, shared, charge, n).value;
    forall field
      ensures FieldOf(d, field) == Some(Wanted(o, car, shared, OfDeparture(n, field)))
    {
      FilledFieldIsWanted(o, car, shared, charge, n, field);
    }
    SlotsSay(d, o, car, shared, n);
    hide SaysSlot, SaysClimate, BuildChargeSlot, BuildHvacSlot;
  }

  predicate ChargingSays(reserv: int, start: WireTime, end: WireTime, o: Options, car: Car, shared: bool) {
    && SaysFlag(reserv, Wanted(o, car, shared, Charging), 1, 0)
    && SaysTime(start, Wanted(o, car, shared, OffPeakStart)) && SaysTime(end, Wanted(o, car, shared, OffPeakEnd))
  }

  lemma FilledChargeSays(o: Options, car: Car, shared: bool, climate: bool)
    requires Aliasing(o, shared)
    ensures var f := Fill(o, car.state, true, climate, shared);
            && ChargeComplete(f)
            && var q := BuildCharge(f);
               && ChargingSays(q.reservFlag, q.start, q.end, o, car, shared)
               && SaysFlag(q.offPeakFlag, Wanted(o, car, shared, OffPeakOnly), 1, 2)
  {
    FillCompletes(o, car.state, true, climate, shared);
    FieldsFollowTheOrder(o, car.state, true, climate, shared, Charging);
    FieldsFollowTheOrder(o, car.state, true, climate, shared, OffPeakOnly);
    FieldsFollowTheOrder(o, car.state, true, climate, shared, OffPeakStart);
    FieldsFollowTheOrder(o, car.state, true, climate, shared, OffPeakEnd);
    hide Fill, Resolve, TopAt, VehicleAt, DefaultAt, PrintTime;
  }

  lemma FlatPlanSays(o: Options, car: Car, shared: bool)
    requires Aliasing(o, shared) && car.flat
    ensures var plan := PlanFor(o, car, shared);
            && (plan.Flat? && plan.charge.Some? ==>
                  var q := plan.charge.value;
                  && ChargingSays(q.reservFlag, q.start, q.end, o, car, shared)
                  && SaysFlag(q.offPeakFlag, Wanted(o, car, shared, OffPeakOnly), 1, 2))
            && (plan.Flat? && plan.hvac.Some? ==>
                  && HvacSlotSays(plan.hvac.value.first, o, car, shared, 1)
                  && HvacSlotSays(plan.hvac.value.second, o, car, shared, 2))
  {
    hide Fill, Wanted, ChargingSays, SaysFlag, HvacSlotSays, BuildHvacSlot, BuildCharge, ChargeActive, ClimateActive;
    if ClimateActive(o) {
      FilledSlotSays(o, car, shared, ChargeActive(o), 1);
      FilledSlotSays(o, car, shared, ChargeActive(o), 2);
    }
    if ChargeActive(o) {
      FilledChargeSays(o, car, shared, ClimateActive(o));
    }
    hide HasTemperature, BuildCombined;
  }

  lemma CombinedPlanSays(o: Options, car: Car, shared: bool)
    requires Aliasing(o, shared) && !car.flat
    ensures var plan := PlanFor(o, car, shared);
            plan.Combined? ==>
              var p := plan.payload;
              && ChargingSays(p.reservFlag, p.offPeakStart, p.offPeakEnd, o, car, shared)
              && SaysFlag(p.offPeakFlag, Wanted(o, car, shared, OffPeakOnly), 2, 1)
              && ChargeSlotSays(p.first, o, car, shared, 1) && ChargeSlotSays(p.second, o, car, shared, 2)
  {
    hide Fill, Wanted, ChargeSlotSays, BuildChargeSlot, BuildCharge, BuildCombined;
    FilledSlotSays(o, car, shared, true, 1);
    FilledSlotSays(o, car, shared, true, 2);
    FilledChargeSays(o, car, shared, true);
    FillCompletes(o, car.state, true, true, shared);
    RequestsMean(Fill(o, car.state, true, true, shared), WireUnit(car.unit));
    hide HasTemperature, BuildHvac, PrintTime;
  }

  /** The requests of a plan say, field by field, what the caller gave, else what the vehicle
      reports, else the default; the off-peak flags are exchanged between the two forms. */
  lemma PlanSays(o: Options, car: Car, shared: bool)
    requires Aliasing(o, shared)
    ensures match PlanFor(o, car, shared)
            case Refuse(_) => true
            case Flat(charge, hvac) =>
              && (charge.Some? ==>
                    && ChargingSays(charge.value.reservFlag, charge.value.start, charge.value.end, o, car, shared)
                    && SaysFlag(charge.value.offPeakFlag, Wanted(o, car, shared, OffPeakOnly), 1, 2))
              && (hvac.Some? ==>
                    && HvacSlotSays(hvac.value.first, o, car, shared, 1)
                    && HvacSlotSays(hvac.value.second, o, car, shared, 2))
            case Combined(p) =>
              && ChargingSays(p.reservFlag, p.offPeakStart, p.offPeakEnd, o, car, shared)
              && SaysFlag(p.offPeakFlag, Wanted(o, car, shared, OffPeakOnly), 2, 1)
              && ChargeSlotSays(p.first, o, car, shared, 1) && ChargeSlotSays(p.second, o, car, shared, 2)
  {
    PlanIff(o, car, shared);
    hide PlanFor, Wanted, ChargingSays, SaysFlag, HvacSlotSays, ChargeSlotSays;
    if car.flat {
      FlatPlanSays(o, car, shared);
    } else {
      CombinedPlanSays(o, car, shared);
    }
  }

  /** A car is its vehicle's fields, each under its own name. */
  lemma CarIsTheVehicle(v: Vehicle)
    ensures var car := CarOf(v);
            && car.flat == (v.ccs2Support && v.isEv) && car.unit == v.evFirstDepartureClimateTemperatureUnit
            && car.state.first == Departure(
                 v.evFirstDepartureEnabled, v.evFirstDepartureDays, v.evFirstDepartureTime,
                 v.evFirstDepartureClimateEnabled, v.evFirstDepartureClimateTemperature,
                 v.evFirstDepartureClimateDefrost)
            && car.state.second == Departure(
                 v.evSecondDepartureEnabled, v.evSecondDepartureDays, v.evSecondDepartureTime,
                 v.evSecondDepartureClimateEnabled, v.evSecondDepartureClimateTemperature,
                 v.evSecondDepartureClimateDefrost)
            && car.state.charging == v.evScheduleChargeEnabled && car.state.offPeakOnly == v.evOffPeakChargeOnlyEnabled
            && car.state.offPeakStart == v.evOffPeakStartTime && car.state.offPeakEnd == v.evOffPeakEndTime
  {
  }

  // ----- what a ValueError means

  /** A failure other than a device-id error or a busy channel is passed on as it is. */
  lemma LastFailurePassedOn(plan: Plan, t: Trace, r: Outcome, f: Failure)
    requires Follows(plan, t, r) && LastFailed(Requests(t), f) && f != DuplicateError
    ensures r == Err(FromServer(f))
  {
    if t.poll.Some? {
      RetriedPollOutcome(t.polls, SentResult(t.charge).value.value, t.poll.value.result, t.poll.value.cut);
    }
    hide RetriedPoll, Answers, StatusOf;
    var log := Requests(t);
    if t.hvac != [] {
      assert log[|log| - 1] == t.hvac[|t.hvac| - 1];
    } else if t.polls != [] {
      assert log[|log| - 1] == t.polls[|t.polls| - 1];
    }
  }

  lemma LogNotEmpty(plan: Plan, t: Trace, r: Outcome)
    requires Follows(plan, t, r) && !plan.Refuse?
    ensures Requests(t) != []
  {
  }

  lemma LastOfLog(runs: seq<Run>, between: seq<Event>, f: Failure)
    requires 1 <= |runs| <= 2
    ensures |runs| == 2 && Requests(runs[1].trace) != [] ==>
              (LastFailed(CallLog(runs, between), f) <==> LastFailed(Requests(runs[1].trace), f))
    ensures |runs| == 1 && between == [] ==>
              (LastFailed(CallLog(runs, between), f) <==> LastFailed(Requests(runs[0].trace), f))
    ensures |runs| == 1 && between != [] ==> (LastFailed(CallLog(runs, between), f) <==> LastFailed(between, f))
  {
    hide Requests;
    var log := CallLog(runs, between);
    if |runs| == 2 && Requests(runs[1].trace) != [] {
      var u := Requests(runs[1].trace);
      assert log[|log| - 1] == u[|u| - 1];
    } else if |runs| == 1 && between != [] {
      assert log[|log| - 1] == between[|between| - 1];
    } else if |runs| == 1 {
      assert log == Requests(runs[0].trace);
    }
  }

  lemma OutcomeIsLastFailure(plan: Plan, t: Trace, r: Outcome, f: Failure)
    requires Follows(plan, t, r) && !plan.Refuse? && f != DuplicateError
    ensures r == Err(FromServer(f)) <==> LastFailed(Requests(t), f)
  {
    if r == Err(FromServer(f)) {
      OutcomeOfAttempt(plan, t, r);
    }
    if LastFailed(Requests(t), f) {
      LastFailurePassedOn(plan, t, r, f);
    }
  }

  lemma PlanRefusals(o: Options, car: Car, shared: bool)
    ensures var plan := PlanFor(o, car, shared);
            plan.Refuse? ==> plan.error == NoChanges || plan.error == NoTemperature
  {
  }

  lemma CallLogNotEmpty(runs: seq<Run>, between: seq<Event>)
    requires 1 <= |runs| <= 2 && Requests(runs[0].trace) != []
    ensures CallLog(runs, between) != []
  {
    hide Requests;
  }

  lemma NotRefusedErrors(plan: Plan, t: Trace, r: Outcome)
    requires Follows(plan, t, r) && !plan.Refuse?
    ensures r.Err? ==> !r.error.NoChanges? && !r.error.NoTemperature?
  {
    OutcomeOfAttempt(plan, t, r);
    hide Follows;
  }

  lemma RegisterFailed(between: seq<Event>, r: Outcome)
    requires |between| == 1 && between[0].Register? && between[0].registration.RegisterRefused?
    requires r == Err(FromServer(between[0].registration.failure))
    ensures LastFailed(between, UndecodableReply) <==> r == Err(FromServer(UndecodableReply))
  {
  }

  /** A call ends in a ValueError exactly when it was refused, and then nothing was sent, or
      when the reply to its last request could not be decoded, and then the log says what
      had been sent before. */
  lemma ValueErrorIff(o: Options, car: Car, shared: bool, runs: seq<Run>, between: seq<Event>, r: Outcome)
    requires SafeCall(PlanFor(o, car, shared), runs, between, r)
    ensures var plan, log := PlanFor(o, car, shared), CallLog(runs, between);
            && (r.Err? && IsValueError(r.error) <==> plan.Refuse? || LastFailed(log, UndecodableReply))
            && (log == [] <==> plan.Refuse?)
  {
    var plan := PlanFor(o, car, shared);
    PlanRefusals(o, car, shared);
    hide PlanFor, Follows, CallLog, LastFailed, Requests;
    var last := runs[|runs| - 1];
    assert Follows(plan, last.trace, last.outcome);
    if plan.Refuse? {
      RefusedMeansSilent(plan, runs, between, r);
    } else {
      LogNotEmpty(plan, runs[0].trace, runs[0].outcome);
      LogNotEmpty(plan, last.trace, last.outcome);
      LastOfLog(runs, between, UndecodableReply);
      NotRefusedErrors(plan, last.trace, last.outcome);
      OutcomeIsLastFailure(plan, last.trace, last.outcome, UndecodableReply);
      CallLogNotEmpty(runs, between);
      if |runs| == 1 && between != [] {
        RegisterFailed(between, r);
      }
    }
  }

  predicate IsPost(e: Event) {
    e.PostCharge? || e.PostHvac? || e.PostCombined?
  }

  predicate NoPost(log: seq<Event>) {
    forall i | 0 <= i < |log| :: !IsPost(log[i])
  }

  /** The headers could not be had, and that was all. */
  predicate OnlyHeaders(log: seq<Event>) {
    |log| == 1 && log[0].HeadersFailed?
  }

  lemma AttemptWithoutPost(plan: Plan, t: Trace, r: Outcome)
    requires Follows(plan, t, r) && !plan.Refuse?
    ensures NoPost(Requests(t)) <==> OnlyHeaders(Requests(t))
  {
    hide RetriedPoll, FewReads;
    var log := Requests(t);
    if t.combined != [] {
      assert log[0] == t.combined[0];
    } else if t.charge != [] {
      assert log[0] == t.charge[0];
    } else {
      assert log == t.hvac;
    }
  }

  lemma NoPostConcat(a: seq<Event>, b: seq<Event>)
    ensures NoPost(a + b) <==> NoPost(a) && NoPost(b)
  {
    var all := a + b;
    assert forall i | 0 <= i < |b| :: all[|a| + i] == b[i];
    assert forall i | 0 <= i < |a| :: all[i] == a[i];
  }

  /** A call posts nothing exactly when it was refused or each attempt failed to get its
      headers, whatever error it ends with. */
  lemma NoPostIff(plan: Plan, runs: seq<Run>, between: seq<Event>, r: Outcome)
    requires SafeCall(plan, runs, between, r) && (plan.Refuse? ==> plan.error != FromServer(DeviceIdError))
    ensures NoPost(CallLog(runs, between))
       <==> plan.Refuse? || forall i | 0 <= i < |runs| :: OnlyHeaders(Requests(runs[i].trace))
  {
    hide Follows, Requests, OnlyHeaders;
    if plan.Refuse? {
      RefusedMeansSilent(plan, runs, between, r);
    } else {
      var a := Requests(runs[0].trace);
      AttemptWithoutPost(plan, runs[0].trace, runs[0].outcome);
      NoPostConcat(a, between);
      assert NoPost(between);
      hide NoPost;
      if |runs| == 2 {
        AttemptWithoutPost(plan, runs[1].trace, runs[1].outcome);
        NoPostConcat(a + between, Requests(runs[1].trace));
      }
    }
  }

  /** Wherever the charge request of a flat plan is answered with no JSON, the call ends in
      a ValueError, with this one post in its log. */
  lemma UndecodableChargeReply(s: Session, from: nat, plan: Plan, runs: seq<Run>, between: seq<Event>, r: Outcome)
    requires SafeCall(plan, runs, between, r) && plan.Flat? && plan.charge.Some?
    requires forall k | 0 <= k < |CallLog(runs, between)| :: s.Says(from + k, CallLog(runs, between)[k])
    requires s.headerFailures(from) == None && s.postReplies(from) == Refused(UndecodableReply)
    ensures r == Err(FromServer(UndecodableReply)) && IsValueError(r.error)
    ensures CallLog(runs, between) == [PostCharge(plan.charge.value, Refused(UndecodableReply))]
  {
    var t := runs[0].trace;
    assert Follows(plan, t, runs[0].outcome);
    assert |t.charge| == 1 && Requests(t)[0] == t.charge[0];
    assert CallLog(runs, between)[0] == t.charge[0];
    assert s.Says(from + 0, t.charge[0]);
    assert t.charge[0] == PostCharge(plan.charge.value, Refused(UndecodableReply));
    hide AfterCharge;
    assert Requests(t) == [t.charge[0]];
  }

  lemma OnlyChargePlan(o: Options, car: Car)
    requires car.flat && ChargeActive(o) && !ClimateActive(o)
    ensures PlanFor(o, car, false).Flat? && PlanFor(o, car, false).charge.Some?
  {
  }

  lemma SaidFrom(s: Session, from: nat, log: seq<Event>, tail: seq<Event>)
    requires |log| == from + |tail| && log[from..] == tail
    requires forall i | 0 <= i < |log| :: s.Says(i, log[i])
    ensures forall k | 0 <= k < |tail| :: s.Says(from + k, tail[k])
  {
    hide Session.Says;
    assert forall k | 0 <= k < |tail| :: tail[k] == log[from + k];
  }

  /** A whole call, on any session whose next reply is no JSON. */
  method CallWithoutJson(s: Session, vehicle: Vehicle, options: ScheduleOptions, ghost plan: Plan) returns (r: Outcome)
    requires s.Valid() && s.headerFailures(|s.log|) == None && s.postReplies(|s.log|) == Refused(UndecodableReply)
    requires plan == PlanFor(options.View(), CarOf(vehicle), options.Shared()) && plan.Flat? && plan.charge.Some?
    modifies s, options, options.firstDeparture, options.secondDeparture
    ensures r == Err(FromServer(UndecodableReply)) && IsValueError(r.error)
    ensures s.log == old(s.log) + [PostCharge(plan.charge.value, Refused(UndecodableReply))]
  {
    hide PlanFor, Follows, CallLog, CarOf, After;
    ghost var from := |s.log|;
    ghost var runs, between;
    r, runs, between := ScheduleChargingAndClimate(s, vehicle, options);
    SaidFrom(s, from, s.log, CallLog(runs, between));
    UndecodableChargeReply(s, from, plan, runs, between, r);
  }

  /** On a fresh session whose server answers every post with no JSON, turning scheduled
      charging on ends in a ValueError after one charge request. */
  method ValueErrorAfterPost() returns (r: Outcome, log: seq<Event>)
    ensures r == Err(FromServer(UndecodableReply)) && IsValueError(r.error)
    ensures |log| == 1 && log[0].PostCharge? && log[0].reply == Refused(UndecodableReply)
  {
    hide PlanFor, IsValueError;
    var s := new Session(_ => Refused(UndecodableReply), _ => ReadRefused(OtherError), _ => RegisterRefused(OtherError),
                         _ => None, _ => 0, 0, "");
    var vehicle := new Vehicle(true, true);
    var options := new ScheduleOptions();
    options.chargingEnabled := Some(true);
    OnlyChargePlan(options.View(), CarOf(vehicle));
    r := CallWithoutJson(s, vehicle, options, PlanFor(options.View(), CarOf(vehicle), false));
    log := s.log;
  }

  // ----- the two scopes do not mix

  /** What a request carries depends on the fields of its own scope alone. */
  lemma BuildsMatch(o: Options, car: Car, shared: bool)
    ensures var f := Fill(o, car.state, true, true, shared);
            var c := Fill(OnlyCharge(o), car.state, true, false, false);
            var k := Fill(OnlyClimate(o), car.state, false, true, shared);
            && ChargeComplete(f) && ClimateComplete(f) && ChargeComplete(c) && ClimateComplete(k)
            && BuildCharge(f) == BuildCharge(c)
            && forall unit :: BuildHvac(f, unit) == BuildHvac(k, unit)
  {
    hide PrintTime, PrintTenths, WireTemperature;
  }

  /** A two-scope call plans for each scope just what a call with that scope alone does: no
      charge field reaches the climate request, and no climate field the charge request. */
  lemma ScopesAreIndependent(o: Options, car: Car, shared: bool)
    requires car.flat && ChargeActive(o) && ClimateActive(o)
    ensures var charge, climate := PlanFor(OnlyCharge(o), car, false), PlanFor(OnlyClimate(o), car, shared);
            && charge.Flat? && charge.charge.Some? && charge.hvac.None?
            && (climate.Refuse? || (climate.Flat? && climate.charge.None? && climate.hvac.Some?))
            && PlanFor(o, car, shared) == if climate.Refuse? then climate else Flat(charge.charge, climate.hvac)
  {
    InactiveIff(OnlyCharge(o));
    InactiveIff(OnlyClimate(o));
    hide BuildCharge, BuildHvac;
    BuildsMatch(o, car, shared);
  }

}
