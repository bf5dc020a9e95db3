/** The Canadian `check_action_status`: polling by self-recursion with a shrinking budget. */
module CanadaPolling {
  import opened Prelude

  datatype Status = Pending | Succeeded | Failed | TimedOut

  /** What one status answer says: `apiResult` C, P or anything else, an error envelope, or
      a response without a transaction block. */
  datatype Answer = Completed | InProgress | OtherResult | ErrorEnvelope | Malformed

  datatype StatusError = InvalidAPIResponse

  /** Every answer and every elapsed time, in microseconds, is an arbitrary function of how
      many requests came before; the clock may even run backwards. */
  class Session {
    const answers: nat -> Answer
    const elapsed: nat -> int
    var posts: nat

    constructor (onPost: nat -> Answer, onClock: nat -> int)
      ensures posts == 0
    {
      answers, elapsed, posts := onPost, onClock, 0;
    }
  }

  /** `timedelta.seconds`: the seconds left after whole days, never negative. */
  function Seconds(microseconds: int): (s: int)
    ensures 0 <= s < 86_400
  {
    microseconds / 1_000_000 % 86_400
  }

  function Direct(a: Answer): Result<Status, StatusError> {
    match a
    case Completed => Ok(Succeeded)
    case InProgress => Ok(Pending)
    case OtherResult => Ok(Failed)
    case ErrorEnvelope => Ok(Failed)
    case Malformed => Err(InvalidAPIResponse)
  }

  /** Each level posts twice and looks at the second answer only. */
  function LevelAnswer(s: Session, before: nat, level: nat): Answer {
    s.answers(before + 2 * level + 1)
  }

  function LevelLimit(timeout: int): nat {
    if timeout < 0 then 0 else timeout / 10 + 1
  }

  /** What `levels` levels took off the budget, starting after `before` requests. */
  function Spent(s: Session, before: nat, levels: nat): (n: int)
    ensures n >= 10 * levels
    decreases levels
  {
    if levels == 0 then 0 else Seconds(s.elapsed(before + 2)) + 10 + Spent(s, before + 2, levels - 1)
  }

  lemma FirstLevel(s: Session, before: nat)
    ensures LevelAnswer(s, before, 0) == s.answers(before + 1)
    ensures Spent(s, before, 0) == 0
  {
  }

  lemma MillionOf(q: nat, r: nat)
    requires r < 1_000_000
    ensures (1_000_000 * q + r) / 1_000_000 == q
  {
  }

  lemma DayOf(q: nat, days: nat)
    requires q < 86_400
    ensures (q + 86_400 * days) % 86_400 == q
  {
  }

  /** Whole days apart, the seconds are those between the two clocks; whole days are lost. */
  lemma SecondsMean(microseconds: int, days: nat)
    requires 0 <= microseconds < 86_400_000_000
    ensures 1_000_000 * Seconds(microseconds) <= microseconds < 1_000_000 * (Seconds(microseconds) + 1)
    ensures Seconds(microseconds + 86_400_000_000 * days) == Seconds(microseconds)
  {
    var q, r := microseconds / 1_000_000, microseconds % 1_000_000;
    assert microseconds + 86_400_000_000 * days == 1_000_000 * (q + 86_400 * days) + r;
    MillionOf(q + 86_400 * days, r);
    DayOf(q, days);
  }

  /** Which answer means what: a completed action, one in progress, an error envelope or any
      other result, and a response without a transaction. The second post of a level counts. */
  lemma AnswersMean(s: Session, before: nat, level: nat)
    ensures Direct(Completed) == Ok(Succeeded) && Direct(InProgress) == Ok(Pending)
    ensures Direct(OtherResult) == Ok(Failed) && Direct(ErrorEnvelope) == Ok(Failed)
    ensures Direct(Malformed) == Err(InvalidAPIResponse)
    ensures LevelAnswer(s, before, level) == s.answers(before + 2 * level + 1)
    ensures LevelLimit(-1) == 0 && LevelLimit(0) == 1 && LevelLimit(9) == 1 && LevelLimit(10) == 2
  {
  }

  /** What one level adds to those that follow it. */
  lemma NextLevel(s: Session, before: nat, deeper: nat)
    ensures forall i: nat | i > 0 :: LevelAnswer(s, before, i) == LevelAnswer(s, before + 2, i - 1)
    ensures var first := Seconds(s.elapsed(before + 2)) + 10;
            && Spent(s, before, deeper + 1) == first + Spent(s, before + 2, deeper)
            && Spent(s, before, deeper) == if deeper == 0 then 0 else first + Spent(s, before + 2, deeper - 1)
  {
  }

  /** However the clock behaves, each level gives up at least ten seconds of the budget, so
      the recursion is at most floor(timeout / 10) + 1 levels deep. All levels but the last
      saw the action in progress; the last one's answer is the result, or the budget really
      ran out. A synchronous call never reports a pending action. */
  method CheckActionStatus(s: Session, synchronous: bool, timeout: int)
      returns (r: Result<Status, StatusError>, ghost levels: nat)
    modifies s
    ensures levels <= LevelLimit(timeout) && s.posts == old(s.posts) + 2 * levels
    ensures !synchronous ==> levels <= 1
    ensures forall i: nat | i + 1 < levels :: LevelAnswer(s, old(s.posts), i) == InProgress
    ensures timeout >= 0 ==> levels >= 1
    ensures if levels == 0 || (synchronous && LevelAnswer(s, old(s.posts), levels - 1) == InProgress)
            then r == Ok(TimedOut) else r == Direct(LevelAnswer(s, old(s.posts), levels - 1))
    ensures levels > 0 ==> Spent(s, old(s.posts), levels - 1) <= timeout
    ensures r == Ok(TimedOut) ==> Spent(s, old(s.posts), levels) > timeout
    ensures synchronous ==> r != Ok(Pending)
    decreases timeout + 1
  {
    hide Seconds, Spent, LevelAnswer;
    levels := 0;
    FirstLevel(s, s.posts);
    if timeout < 0 {
      return Ok(TimedOut), 0;
    }
    ghost var before := s.posts;
    var answer := s.answers(s.posts);
    s.posts := s.posts + 1;
    answer := s.answers(s.posts);
    s.posts := s.posts + 1;
    match answer
    case ErrorEnvelope => return Ok(Failed), 1;
    case Malformed => return Err(InvalidAPIResponse), 1;
    case Completed => return Ok(Succeeded), 1;
    case OtherResult => return Ok(Failed), 1;
    case InProgress =>
      if !synchronous {
        return Ok(Pending), 1;
      }
      var timeLeft := timeout - Seconds(s.elapsed(s.posts)) - 10;
      ghost var deeper;
      r, deeper := CheckActionStatus(s, synchronous, timeLeft);
      levels := 1 + deeper;
      NextLevel(s, before, deeper);
  }

}
