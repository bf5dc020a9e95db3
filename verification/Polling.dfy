/** A session with the server as an oracle, and the action-status polling of
    `ApiImplType1.check_action_status` with its device-id retry. */
module Polling {
  import opened Prelude
  import opened Wire

  /** The exceptions a request can raise: the one that is retried, the one that means a
      busy channel, a ValueError, as for a reply that is not JSON, and all others. */
  datatype Failure = DeviceIdError | DuplicateError | UndecodableReply | OtherError

  datatype PostReply = Accepted(msgId: string) | Refused(failure: Failure)
  datatype RegisterReply = Registered(deviceId: string) | RegisterRefused(failure: Failure)

  /** `result` of a notification record; `NotSet` is a null result. */
  datatype RecordResult = Success | Fail | NonResponse | NotSet | Unrecognized
  datatype Record = Record(id: string, result: RecordResult)
  datatype ReadReply = Records(records: seq<Record>) | ReadRefused(failure: Failure)

  datatype Status = Pending | Succeeded | Failed | TimedOut | UnknownOrder

  datatype Event =
    | PostCharge(charge: ChargePayload, reply: PostReply)
    | PostHvac(hvac: HvacPayload, reply: PostReply)
    | PostCombined(combined: CombinedPayload, reply: PostReply)
    | HeadersFailed(failure: Failure)  // no control token, so no post
    | ReadRecords(actionId: string, records: ReadReply)
    | Register(registration: RegisterReply)

  const SECOND: int := 1_000_000  // the clock counts microseconds

  /** One caller's view of the server: every reply and header failure is an
      arbitrary function of how many requests came before, every delay one of how many
      delays there were, and every request is logged. */
  class Session {
    const postReplies: nat -> PostReply
    const readReplies: nat -> ReadReply
    const registerReplies: nat -> RegisterReply
    const headerFailures: nat -> Option<Failure>
    const delays: nat -> nat
    var log: seq<Event>
    var now: int
    var ticks: nat  // how often the clock was moved
    var deviceId: string

    /** What the server says about request number `i`. */
    predicate Says(i: nat, e: Event) {
      match e
      case PostCharge(_, reply) => headerFailures(i) == None && reply == postReplies(i)
      case PostHvac(_, reply) => headerFailures(i) == None && reply == postReplies(i)
      case PostCombined(_, reply) => headerFailures(i) == None && reply == postReplies(i)
      case HeadersFailed(f) => headerFailures(i) == Some(f)
      case ReadRecords(_, reply) => reply == readReplies(i)
      case Register(reply) => reply == registerReplies(i)
    }

    /** Every logged event is what the server said at its turn. */
    ghost predicate Valid()
      reads this`log
    {
      forall i | 0 <= i < |log| :: Says(i, log[i])
    }

    constructor (onPost: nat -> PostReply, onRead: nat -> ReadReply, onRegister: nat -> RegisterReply,
                 onHeaders: nat -> Option<Failure>, waits: nat -> nat, start: int, device: string)
      ensures Valid() && log == [] && now == start && ticks == 0 && deviceId == device
      ensures postReplies == onPost && readReplies == onRead && registerReplies == onRegister
      ensures headerFailures == onHeaders && delays == waits
    {
      postReplies, readReplies, registerReplies, headerFailures, delays := onPost, onRead, onRegister, onHeaders, waits;
      log, now, ticks, deviceId := [], start, 0, device;
    }

    method Elapse(atLeast: nat)
      modifies this`now, this`ticks
      ensures now >= old(now) + atLeast
    {
      now := now + atLeast + delays(ticks);
      ticks := ticks + 1;
    }

    method Sleep(seconds: nat)
      modifies this`now, this`ticks
      ensures now >= old(now) + seconds * SECOND
    {
      Elapse(seconds * SECOND);
    }

    method Read(id: string) returns (r: ReadReply)
      requires Valid()
      modifies this`log, this`now, this`ticks
      ensures Valid() && log == old(log) + [ReadRecords(id, r)] && now >= old(now)
    {
      r := readReplies(|log|);
      Elapse(0);
      log := log + [ReadRecords(id, r)];
    }

    method RegisterDevice() returns (r: RegisterReply)
      requires Valid()
      modifies this
      ensures Valid() && log == old(log) + [Register(r)] && now >= old(now)
      ensures deviceId == if r.Registered? then r.deviceId else old(deviceId)
    {
      r := registerReplies(|log|);
      Elapse(0);
      log := log + [Register(r)];
      if r.Registered? {
        deviceId := r.deviceId;
      }
    }
  }

  // ----- one look at the records

  function Decided(r: RecordResult): Option<Status> {
    match r
    case Success => Some(Succeeded)
    case Fail => Some(Failed)
    case NonResponse => Some(TimedOut)
    case NotSet => Some(Pending)
    case Unrecognized => None
  }

  predicate Tells(r: Record, id: string) {
    r.id == id && Decided(r.result).Some?
  }

  function StatusOf(records: seq<Record>, id: string): Status {
    if records == [] then UnknownOrder
    else if Tells(records[0], id) then Decided(records[0].result).value
    else StatusOf(records[1..], id)
  }

  /** The loop over the notification records. */
  method FindStatus(records: seq<Record>, id: string) returns (s: Status)
    ensures s == StatusOf(records, id)
  {
    assert records[0..] == records;
    for i := 0 to |records|
      invariant StatusOf(records, id) == StatusOf(records[i..], id)
    {
      assert records[i..][1..] == records[i + 1..];
      if records[i].id == id {
        match records[i].result
        case Success => return Succeeded;
        case Fail => return Failed;
        case NonResponse => return TimedOut;
        case NotSet => return Pending;
        case Unrecognized =>
      }
    }
    return UnknownOrder;
  }

  /** The status is the one of the first record that tells anything about the action. */
  lemma {:induction false} StatusOfFirst(records: seq<Record>, id: string, k: nat)
    requires k < |records| && Tells(records[k], id) && forall i | 0 <= i < k :: !Tells(records[i], id)
    ensures StatusOf(records, id) == Decided(records[k].result).value
  {
    if k > 0 {
      assert !Tells(records[0], id);
      StatusOfFirst(records[1..], id, k - 1);
    }
  }

  lemma {:induction false} UnknownIff(records: seq<Record>, id: string)
    ensures StatusOf(records, id) == UnknownOrder <==> forall i | 0 <= i < |records| :: !Tells(records[i], id)
  {
    if records != [] {
      UnknownIff(records[1..], id);
      if Tells(records[0], id) {
        assert !forall i | 0 <= i < |records| :: !Tells(records[i], id);
      } else {
        assert forall i | 1 <= i < |records| :: records[i] == records[1..][i - 1];
      }
    }
  }

  /** Record `k` is the action's with this result, and all before it tell nothing. */
  predicate KnownFirstAt(records: seq<Record>, id: string, result: RecordResult, k: nat) {
    && k < |records| && records[k].id == id && records[k].result == result
    && forall i | 0 <= i < k && records[i].id == id :: records[i].result == Unrecognized
  }

  /** The first record of the action whose result is one of the four known ones has this
      result. */
  predicate FirstKnownIs(records: seq<Record>, id: string, result: RecordResult) {
    exists k | 0 <= k < |records| :: KnownFirstAt(records, id, result, k)
  }

  lemma KnownShift(records: seq<Record>, id: string, result: RecordResult, k: nat)
    requires records != [] && !(records[0].id == id && records[0].result != Unrecognized)
    ensures KnownFirstAt(records[1..], id, result, k) <==> KnownFirstAt(records, id, result, k + 1)
  {
    var tail := records[1..];
    assert forall i | 0 <= i < |tail| :: tail[i] == records[i + 1];
    assert forall i | 0 < i < |records| :: records[i] == tail[i - 1];
  }

  lemma FirstKnownStep(records: seq<Record>, id: string, result: RecordResult)
    requires records != [] && result != Unrecognized
    ensures FirstKnownIs(records, id, result)
       <==> if records[0].id == id && records[0].result != Unrecognized then records[0].result == result
            else FirstKnownIs(records[1..], id, result)
  {
    if records[0].id == id && records[0].result != Unrecognized {
      if records[0].result == result {
        assert KnownFirstAt(records, id, result, 0);
      }
    } else {
      assert !KnownFirstAt(records, id, result, 0);
      if FirstKnownIs(records, id, result) {
        var k :| 0 <= k < |records| && KnownFirstAt(records, id, result, k);
        KnownShift(records, id, result, k - 1);
      }
      if FirstKnownIs(records[1..], id, result) {
        var k :| 0 <= k < |records[1..]| && KnownFirstAt(records[1..], id, result, k);
        KnownShift(records, id, result, k);
      }
    }
  }

  /** Which status each result of a record means: success, fail, non-response and a null
      result; and an unknown order when no record of the action has one of these. */
  lemma {:induction false} StatusIff(records: seq<Record>, id: string)
    ensures StatusOf(records, id) == Succeeded <==> FirstKnownIs(records, id, Success)
    ensures StatusOf(records, id) == Failed <==> FirstKnownIs(records, id, Fail)
    ensures StatusOf(records, id) == TimedOut <==> FirstKnownIs(records, id, NonResponse)
    ensures StatusOf(records, id) == Pending <==> FirstKnownIs(records, id, NotSet)
    ensures StatusOf(records, id) == UnknownOrder
       <==> forall i | 0 <= i < |records| && records[i].id == id :: records[i].result == Unrecognized
  {
    if records != [] {
      StatusIff(records[1..], id);
      FirstKnownStep(records, id, Success);
      FirstKnownStep(records, id, Fail);
      FirstKnownStep(records, id, NonResponse);
      FirstKnownStep(records, id, NotSet);
      UnknownIff(records, id);
    }
    hide FirstKnownIs;
  }

  // ----- polling

  /** The statuses that the successful reads of a log gave, in order. */
  function Answers(events: seq<Event>): seq<Status> {
    if events == [] then []
    else
      var e := events[|events| - 1];
      Answers(events[..|events| - 1])
      + if e.ReadRecords? && e.records.Records? then [StatusOf(e.records.records, e.actionId)] else []
  }

  function Reads(events: seq<Event>): nat {
    if events == [] then 0
    else Reads(events[..|events| - 1]) + if events[|events| - 1].ReadRecords? then 1 else 0
  }

  function Registers(events: seq<Event>): nat {
    if events == [] then 0
    else Registers(events[..|events| - 1]) + if events[|events| - 1].Register? then 1 else 0
  }

  predicate AllPending(a: seq<Status>) {
    forall i | 0 <= i < |a| :: a[i] == Pending
  }

  /** Only reads of this action's record, and device registrations. */
  predicate PollEvents(events: seq<Event>, id: string) {
    forall i | 0 <= i < |events| :: events[i].Register? || (events[i].ReadRecords? && events[i].actionId == id)
  }

  /** The last event is the read that settled the action as `st`. */
  predicate SettledBy(events: seq<Event>, id: string, st: Status) {
    && |events| > 0
    && var e := events[|events| - 1];
       e.ReadRecords? && e.actionId == id && e.records.Records? && StatusOf(e.records.records, id) == st
  }

  /** The last event is the request that raised `f`. */
  predicate FailedBy(events: seq<Event>, f: Failure) {
    && |events| > 0
    && match events[|events| - 1]
       case ReadRecords(_, ReadRefused(g)) => f == g
       case Register(RegisterRefused(g)) => f == g
       case _ => false
  }

  /** What a poll's result says about its log: the result is the first status that is not
      pending; or a timeout after nothing but pending ones, one at least; or the error of
      the last request, after nothing but pending ones. */
  predicate PollOutcome(events: seq<Event>, id: string, r: Result<Status, Failure>) {
    && PollEvents(events, id)
    && r != Ok(Pending)
    && ((r.Ok? && SettledBy(events, id, r.value) && AllPending(Answers(events[..|events| - 1])))
        || (&& AllPending(Answers(events))
            && if r.Ok? then r.value == TimedOut && SettledBy(events, id, Pending) else FailedBy(events, r.error)))
  }

  lemma {:induction false} AnswersConcat(a: seq<Event>, b: seq<Event>)
    ensures Answers(a + b) == Answers(a) + Answers(b)
    ensures Reads(a + b) == Reads(a) + Reads(b)
    ensures Registers(a + b) == Registers(a) + Registers(b)
  {
    if b == [] {
      assert a + b == a;
    } else {
      var n := |b| - 1;
      assert (a + b)[..|a + b| - 1] == a + b[..n];
      AnswersConcat(a, b[..n]);
    }
  }

  /** Pending looks in front of a poll change nothing about its outcome. */
  lemma OutcomeAfter(head: seq<Event>, t: seq<Event>, id: string, r: Result<Status, Failure>)
    requires PollEvents(head, id) && AllPending(Answers(head)) && PollOutcome(t, id, r)
    ensures PollOutcome(head + t, id, r)
    ensures Reads(head + t) == Reads(head) + Reads(t) && Registers(head + t) == Registers(head) + Registers(t)
  {
    hide Answers, Reads, Registers, StatusOf;
    AnswersConcat(head, t);
    if |t| > 0 {
      AnswersConcat(head, t[..|t| - 1]);
      assert (head + t)[..|head + t| - 1] == head + t[..|t| - 1];
    }
  }

  lemma OneEvent(t: seq<Event>, e: Event)
    ensures Answers(t + [e]) == Answers(t)
      + if e.ReadRecords? && e.records.Records? then [StatusOf(e.records.records, e.actionId)] else []
    ensures Reads(t + [e]) == Reads(t) + if e.ReadRecords? then 1 else 0
    ensures Registers(t + [e]) == Registers(t) + if e.Register? then 1 else 0
    ensures (t + [e])[..|t + [e]| - 1] == t
  {
    assert (t + [e])[..|t|] == t;
  }

  function ReadOutcome(e: Event): Result<Status, Failure>
    requires e.ReadRecords?
  {
    match e.records
    case Records(rs) => Ok(StatusOf(rs, e.actionId))
    case ReadRefused(f) => Err(f)
  }

  /** One non-synchronous status read. */
  method ReadStatus(s: Session, id: string) returns (r: Result<Status, Failure>, ghost e: Event)
    requires s.Valid()
    modifies s`log, s`now, s`ticks
    ensures s.Valid()
    ensures s.log == old(s.log) + [e] && s.now >= old(s.now)
    ensures e.ReadRecords? && e.actionId == id
    ensures r == ReadOutcome(e)
  {
    var reply := s.Read(id);
    e := ReadRecords(id, reply);
    match reply
    case ReadRefused(f) => return Err(f), e;
    case Records(rs) =>
      var st := FindStatus(rs, id);
      return Ok(st), e;
  }

  /** A read; after a device-id error a registration, and after a good one a second read. */
  predicate RetriedRead(t: seq<Event>, id: string, r: Result<Status, Failure>) {
    && 1 <= |t| <= 3
    && t[0].ReadRecords? && t[0].actionId == id
    && if ReadOutcome(t[0]) != Err(DeviceIdError) then |t| == 1 && r == ReadOutcome(t[0])
       else |t| >= 2 && t[1].Register?
            && match t[1].registration
               case RegisterRefused(f) => |t| == 2 && r == Err(f)
               case Registered(_) => |t| == 3 && t[2].ReadRecords? && t[2].actionId == id && r == ReadOutcome(t[2])
  }

  /** The status read behind `_retry_on_device_id_error`. */
  method ReadStatusRetried(s: Session, id: string) returns (r: Result<Status, Failure>, ghost t: seq<Event>)
    requires s.Valid()
    modifies s
    ensures s.Valid()
    ensures s.log == old(s.log) + t && s.now >= old(s.now)
    ensures RetriedRead(t, id, r)
  {
    ghost var e;
    r, e := ReadStatus(s, id);
    t := [e];
    if r == Err(DeviceIdError) {
      var g := s.RegisterDevice();
      t := t + [Register(g)];
      match g
      case RegisterRefused(f) => r := Err(f);
      case Registered(_) =>
        r, e := ReadStatus(s, id);
        t := t + [e];
    }
  }

  /** A read after events that told nothing settles the poll, unless it says pending. */
  lemma LastRead(h: seq<Event>, e: Event, id: string)
    requires PollEvents(h, id) && Answers(h) == [] && e.ReadRecords? && e.actionId == id
    ensures Reads(h + [e]) == Reads(h) + 1 && Registers(h + [e]) == Registers(h) && PollEvents(h + [e], id)
    ensures ReadOutcome(e) != Ok(Pending) ==> PollOutcome(h + [e], id, ReadOutcome(e))
    ensures ReadOutcome(e) == Ok(Pending) ==> AllPending(Answers(h + [e])) && SettledBy(h + [e], id, Pending)
    ensures ReadOutcome(e).Err? ==> Answers(h + [e]) == []
  {
    hide Answers, Reads, Registers, StatusOf;
    OneEvent(h, e);
  }

  lemma LastRegister(h: seq<Event>, g: RegisterReply, id: string)
    requires PollEvents(h, id) && Answers(h) == []
    ensures Reads(h + [Register(g)]) == Reads(h) && Registers(h + [Register(g)]) == Registers(h) + 1
    ensures PollEvents(h + [Register(g)], id) && Answers(h + [Register(g)]) == []
    ensures g.RegisterRefused? ==> PollOutcome(h + [Register(g)], id, Err(g.failure))
  {
    hide Answers, Reads, Registers;
    OneEvent(h, Register(g));
  }

  lemma EmptyLog()
    ensures Answers([]) == [] && Reads([]) == 0 && Registers([]) == 0
    ensures AllPending([]) && forall id :: PollEvents([], id)
  {
  }

  /** A retried read is one read, or two around a registration, and the outcome of a poll
      unless still pending. */
  lemma RetriedReadOutcome(t: seq<Event>, id: string, r: Result<Status, Failure>)
    requires RetriedRead(t, id, r)
    ensures 1 <= Reads(t) <= 1 + Registers(t) && PollEvents(t, id)
    ensures r != Ok(Pending) ==> PollOutcome(t, id, r)
    ensures r == Ok(Pending) ==> AllPending(Answers(t)) && SettledBy(t, id, Pending)
  {
    hide Answers, Reads, Registers, ReadOutcome, PollOutcome, PollEvents, AllPending, SettledBy;
    EmptyLog();
    LastRead([], t[0], id);
    if |t| == 1 {
      assert t == [] + [t[0]];
    } else {
      LastRegister([] + [t[0]], t[1].registration, id);
      assert t[..2] == ([] + [t[0]]) + [t[1]];
      if |t| == 2 {
        assert t == t[..2];
      } else {
        LastRead(t[..2], t[2], id);
        assert t == t[..2] + [t[2]];
      }
    }
  }

  function PollLimit(timeout: int): nat
    requires timeout >= 1
  {
    (timeout + 4) / 5
  }

  lemma PendingAfter(t: seq<Event>, u: seq<Event>, id: string)
    requires PollEvents(t, id) && AllPending(Answers(t))
    requires PollEvents(u, id) && AllPending(Answers(u)) && SettledBy(u, id, Pending)
    ensures PollEvents(t + u, id) && AllPending(Answers(t + u)) && SettledBy(t + u, id, Pending)
    ensures Reads(t + u) == Reads(t) + Reads(u) && Registers(t + u) == Registers(t) + Registers(u)
  {
    hide Answers, Reads, Registers, StatusOf;
    AnswersConcat(t, u);
  }

  lemma GaveUp(t: seq<Event>, id: string)
    requires PollEvents(t, id) && AllPending(Answers(t)) && SettledBy(t, id, Pending)
    ensures PollOutcome(t, id, Ok(TimedOut))
  {
  }

  /** A timeout that came from a read is the one the record told. */
  lemma TimeoutSettled(t: seq<Event>, u: seq<Event>, id: string, r: Result<Status, Failure>)
    requires RetriedRead(u, id, r)
    ensures r.Ok? ==> SettledBy(t + u, id, r.value)
  {
    hide StatusOf;
  }

  /** The least number of five-second turns that reach the timeout. */
  lemma PollLimitMeans(timeout: int)
    requires timeout >= 1
    ensures 5 * (PollLimit(timeout) - 1) < timeout <= 5 * PollLimit(timeout)
    ensures PollLimit(15) == 3
  {
  }

  /** The synchronous loop: read, sleep five seconds while pending, give up at the timeout.
      Each sleep moves the clock by at least its length, so there are at most
      ceil(timeout / 5) turns, each of one read and, after a device-id error, a
      registration and one more; it only gives up once the clock has passed the timeout,
      and the result is never pending. */
  method PollLoop(s: Session, id: string, timeout: int) returns (r: Result<Status, Failure>, ghost t: seq<Event>)
    requires timeout >= 1
    requires s.Valid()
    modifies s
    ensures s.Valid()
    ensures s.log == old(s.log) + t
    ensures PollOutcome(t, id, r) && 1 <= Reads(t) <= PollLimit(timeout) + Registers(t)
    ensures s.now >= old(s.now) && r != Ok(Pending)
    ensures r == Ok(TimedOut) && !SettledBy(t, id, TimedOut) ==> s.now >= old(s.now) + timeout * SECOND
  {
    hide Answers, Reads, Registers, SettledBy, StatusOf, PollOutcome, RetriedRead, PollEvents, AllPending;
    hide Session.Valid;
    t := [];
    EmptyLog();
    var end := s.now + timeout * SECOND;
    ghost var turns: nat := 0;
    while end > s.now
      invariant s.Valid() && s.log == old(s.log) + t && s.now >= old(s.now)
      invariant PollEvents(t, id) && AllPending(Answers(t)) && turns <= Reads(t) <= turns + Registers(t)
      invariant turns > 0 ==> SettledBy(t, id, Pending)
      invariant end - s.now <= (timeout - 5 * turns) * SECOND
      invariant turns <= PollLimit(timeout) && (turns == 0 ==> end > s.now)
      decreases end - s.now
    {
      ghost var u;
      r, u := ReadStatusRetried(s, id);
      RetriedReadOutcome(u, id, r);
      if r != Ok(Pending) {
        OutcomeAfter(t, u, id, r);
        TimeoutSettled(t, u, id, r);
        t := t + u;
        return;
      }
      PendingAfter(t, u, id);
      t := t + u;
      s.Sleep(5);
      turns := turns + 1;
    }
    r := Ok(TimedOut);
    GaveUp(t, id);
  }

  /** The synchronous `check_action_status`, which refuses a timeout below one second. */
  method Poll(s: Session, id: string, timeout: int) returns (r: Result<Status, Failure>, ghost t: seq<Event>)
    requires s.Valid()
    modifies s
    ensures s.Valid()
    ensures s.log == old(s.log) + t
    ensures s.now >= old(s.now) && r != Ok(Pending)
    ensures timeout < 1 ==> r == Err(OtherError) && t == []
    ensures timeout >= 1 ==> PollOutcome(t, id, r) && 1 <= Reads(t) <= PollLimit(timeout) + Registers(t)
    ensures timeout >= 1 && r == Ok(TimedOut) && !SettledBy(t, id, TimedOut) ==> s.now >= old(s.now) + timeout * SECOND
  {
    if timeout < 1 {
      return Err(OtherError), [];
    }
    hide PollOutcome, SettledBy, Reads, Registers, Session.Valid;
    r, t := PollLoop(s, id, timeout);
  }

  /** Where a retried poll was cut: nowhere, or at a registration after a device-id error. */
  predicate RetriedPoll(t: seq<Event>, id: string, r: Result<Status, Failure>, cut: Option<nat>) {
    match cut
    case None => PollOutcome(t, id, r) && r != Err(DeviceIdError)
    case Some(n) =>
      && n < |t| && t[n].Register? && PollOutcome(t[..n], id, Err(DeviceIdError))
      && match t[n].registration
         case RegisterRefused(f) => n + 1 == |t| && r == Err(f)
         case Registered(_) => PollOutcome(t[n + 1..], id, r)
  }

  /** At most ceil(timeout / 5) turns a poll, and one poll or two: besides these there is
      one read for each registration, but for the one between the polls. */
  predicate FewReads(t: seq<Event>, timeout: int, cut: Option<nat>)
    requires timeout >= 1
  {
    match cut
    case None => Reads(t) <= PollLimit(timeout) + Registers(t)
    case Some(_) => Reads(t) <= 2 * PollLimit(timeout) + Registers(t) - 1
  }

  lemma SplitAt(t: seq<Event>, e: Event, u: seq<Event>)
    ensures var all := t + [e] + u; all[..|t|] == t && all[|t|] == e && all[|t| + 1..] == u
  {
  }

  lemma SettledAfter(head: seq<Event>, u: seq<Event>, id: string, st: Status)
    ensures SettledBy(u, id, st) ==> SettledBy(head + u, id, st)
  {
    hide StatusOf;
  }

  /** The loop behind `_retry_on_device_id_error`. */
  method PollRetried(s: Session, id: string, timeout: int)
      returns (r: Result<Status, Failure>, ghost t: seq<Event>, ghost cut: Option<nat>)
    requires timeout >= 1
    requires s.Valid()
    modifies s
    ensures s.Valid()
    ensures s.log == old(s.log) + t
    ensures RetriedPoll(t, id, r, cut) && FewReads(t, timeout, cut)
    ensures s.now >= old(s.now) && r != Ok(Pending)
    ensures r == Ok(TimedOut) && !SettledBy(t, id, TimedOut) ==> s.now >= old(s.now) + timeout * SECOND
  {
    hide PollOutcome, Reads, Registers, Answers, SettledBy, PollLimit, Session.Valid;
    cut := None;
    r, t := Poll(s, id, timeout);
    if r == Err(DeviceIdError) {
      var g := s.RegisterDevice();
      ghost var head := t + [Register(g)];
      cut := Some(|t|);
      OneEvent(t, Register(g));
      match g
      case RegisterRefused(f) =>
        r, t := Err(f), head;
      case Registered(_) =>
        ghost var u;
        r, u := Poll(s, id, timeout);
        AnswersConcat(head, u);
        SplitAt(t, Register(g), u);
        SettledAfter(head, u, id, TimedOut);
        t := head + u;
    }
  }

  /** Cut or not, a retried poll that ends without an error has the outcome of one poll. */
  lemma RetriedPollOutcome(t: seq<Event>, id: string, r: Result<Status, Failure>, cut: Option<nat>)
    requires RetriedPoll(t, id, r, cut)
    ensures PollOutcome(t, id, r)
  {
    if cut.Some? {
      var head, rest := t[..cut.value + 1], t[cut.value + 1..];
      assert t == head + rest && head == t[..cut.value] + [t[cut.value]];
      OneEvent(t[..cut.value], t[cut.value]);
      hide Answers;
      if t[cut.value].registration.Registered? {
        OutcomeAfter(head, rest, id, r);
      } else {
        assert t == head;
      }
    }
  }
}
