/** The per-server circuit breaker, related to the history of what was recorded and asked. */
module CircuitBreaker {

  datatype State = Closed | Open | HalfOpen

  function StateName(s: State): string {
    match s
    case Closed => "CLOSED"
    case Open => "OPEN"
    case HalfOpen => "HALF_OPEN"
  }

  /** The mutable part of a breaker. Times are readings of one clock. */
  datatype Core = Core(state: State, failureCount: int, lastFailureTime: int)

  const Fresh := Core(Closed, 0, 0)

  function AfterSuccess(c: Core): Core {
    c.(failureCount := 0, state := Closed)
  }

  function AfterFailure(c: Core, threshold: int, now: int): Core {
    var count := c.failureCount + 1;
    Core(if count >= threshold || c.state == HalfOpen then Open else c.state, count, now)
  }

  predicate Blocks(c: Core, timeout: int, now: int) {
    c.state == Open && now - c.lastFailureTime <= timeout
  }

  function AfterAsk(c: Core, timeout: int, now: int): Core {
    if c.state == Open && now - c.lastFailureTime > timeout then c.(state := HalfOpen) else c
  }

  // ------------------------------------------------------------------ histories

  /** What happens to a breaker: a recorded success, a recorded failure, a question and its answer. */
  datatype Event = Succeeded | Failed(at: int) | Asked(at: int, admitted: bool)

  type History = seq<Event>

  function FailuresSinceSuccess(h: History): nat {
    if h == [] then 0 else
      var earlier := h[..|h| - 1];
      match h[|h| - 1]
      case Succeeded => 0
      case Failed(_) => FailuresSinceSuccess(earlier) + 1
      case Asked(_, _) => FailuresSinceSuccess(earlier)
  }

  /** The time of the latest failure; 0 if there was none. */
  function LatestFailure(h: History): int {
    if h == [] then 0
    else if h[|h| - 1].Failed? then h[|h| - 1].at
    else LatestFailure(h[..|h| - 1])
  }

  /** Some question has been answered with yes since the latest failure. */
  predicate AdmittedSinceFailure(h: History) {
    h != [] && !h[|h| - 1].Failed?
    && ((h[|h| - 1].Asked? && h[|h| - 1].admitted) || AdmittedSinceFailure(h[..|h| - 1]))
  }

  /** The latest clock reading in the history does not exceed `now`, nor any earlier one a later one. */
  predicate Clocked(h: History, now: int) {
    h != [] ==>
      match h[|h| - 1]
      case Succeeded => Clocked(h[..|h| - 1], now)
      case Failed(at) => at <= now && Clocked(h[..|h| - 1], at)
      case Asked(at, _) => at <= now && Clocked(h[..|h| - 1], at)
  }

  /** A breaker trips after this many failures: at least one, whatever was configured. */
  function TripsAt(threshold: int): int {
    if threshold < 1 then 1 else threshold
  }

  /** When a request may be sent, said about the history alone. */
  predicate Admits(h: History, threshold: int, timeout: int, now: int) {
    FailuresSinceSuccess(h) < TripsAt(threshold) || now - LatestFailure(h) > timeout
  }

  function Replay(h: History, threshold: int, timeout: int): Core {
    if h == [] then Fresh else
      var c := Replay(h[..|h| - 1], threshold, timeout);
      match h[|h| - 1]
      case Succeeded => AfterSuccess(c)
      case Failed(at) => AfterFailure(c, threshold, at)
      case Asked(at, _) => AfterAsk(c, timeout, at)
  }

  /** Every recorded answer is the one the breaker gave. */
  predicate Answered(h: History, threshold: int, timeout: int) {
    h != [] ==>
      && Answered(h[..|h| - 1], threshold, timeout)
      && (h[|h| - 1].Asked? ==>
            h[|h| - 1].admitted == !Blocks(Replay(h[..|h| - 1], threshold, timeout), timeout, h[|h| - 1].at))
  }

  /** The breaker refines its history: the counter counts the failures since the last success, the breaker
      is closed exactly while they are fewer than the threshold, and half open exactly when they are not and
      a question was answered with yes since the latest failure. */
  lemma {:induction false} RefinesHistory(h: History, threshold: int, timeout: int)
    requires Answered(h, threshold, timeout)
    ensures var c := Replay(h, threshold, timeout);
            var n := FailuresSinceSuccess(h);
            && c.failureCount == n
            && (c.state == Closed <==> n < TripsAt(threshold))
            && (c.state == HalfOpen <==> n >= TripsAt(threshold) && AdmittedSinceFailure(h))
            && (n > 0 ==> c.lastFailureTime == LatestFailure(h))
  {
    if h != [] {
      RefinesHistory(h[..|h| - 1], threshold, timeout);
    }
  }

  /** A half-open breaker has outlived its recovery timeout. */
  lemma {:induction false} HalfOpenIsRecovered(h: History, threshold: int, timeout: int, now: int)
    requires Answered(h, threshold, timeout) && Clocked(h, now)
    ensures Replay(h, threshold, timeout).state == HalfOpen ==> now - LatestFailure(h) > timeout
  {
    if h != [] {
      var earlier := h[..|h| - 1];
      RefinesHistory(earlier, threshold, timeout);
      match h[|h| - 1]
      case Succeeded =>
      case Failed(_) =>
      case Asked(at, _) =>
        HalfOpenIsRecovered(earlier, threshold, timeout, at);
    }
  }

  /** Admission over whole runs: under a clock that does not run backwards, a request is admitted exactly
      when there were too few failures since the last success or the latest one is long enough ago. */
  lemma AdmissionByHistory(h: History, threshold: int, timeout: int, now: int)
    requires Answered(h, threshold, timeout) && Clocked(h, now)
    ensures !Blocks(Replay(h, threshold, timeout), timeout, now) <==> Admits(h, threshold, timeout, now)
  {
    RefinesHistory(h, threshold, timeout);
    HalfOpenIsRecovered(h, threshold, timeout, now);
  }

  lemma {:induction false} ClockedLater(h: History, now: int, later: int)
    requires Clocked(h, now) && now <= later
    ensures Clocked(h, later)
  {
    if h != [] && h[|h| - 1].Succeeded? {
      ClockedLater(h[..|h| - 1], now, later);
    }
  }

  /** Once admissible, a breaker stays admissible until something is recorded. */
  lemma AdmitsLater(h: History, threshold: int, timeout: int, now: int, later: int)
    requires Admits(h, threshold, timeout, now) && now <= later
    ensures Admits(h, threshold, timeout, later)
    ensures Admits(h + [Asked(later, true)], threshold, timeout, later)
  {
    assert (h + [Asked(later, true)])[..|h|] == h;
  }

  /** Whatever else happens between two questions, only a recorded failure can take the admission back. */
  lemma {:induction false} OnlyFailuresRevoke(h: History, more: History, threshold: int, timeout: int, now: int, later: int)
    requires Admits(h, threshold, timeout, now) && now <= later
    requires forall i :: 0 <= i < |more| ==> !more[i].Failed?
    ensures Admits(h + more, threshold, timeout, later)
  {
    if more == [] {
      assert h + more == h;
    } else {
      var n := |more| - 1;
      OnlyFailuresRevoke(h, more[..n], threshold, timeout, now, later);
      assert (h + more)[..|h + more| - 1] == h + more[..n] && (h + more)[|h + more| - 1] == more[n];
    }
  }

  /** And a failure does so exactly if it makes the failures since the last success reach the threshold,
      until the timeout has passed. */
  lemma FailureRevokesExactly(h: History, threshold: int, timeout: int, at: int, later: int)
    ensures Admits(h + [Failed(at)], threshold, timeout, later)
       <==> FailuresSinceSuccess(h) + 1 < TripsAt(threshold) || later - at > timeout
  {
    assert (h + [Failed(at)])[..|h|] == h;
  }

  // ------------------------------------------------------------------ the breaker object

  class Breaker {
    var state: State
    var failureCount: int
    const threshold: int
    const recoveryTimeout: int
    var lastFailureTime: int
    ghost var history: History

    constructor (threshold: int, recoveryTimeout: int)
      ensures Valid() && history == []
      ensures this.threshold == threshold && this.recoveryTimeout == recoveryTimeout
    {
      this.state, this.failureCount, this.lastFailureTime := Closed, 0, 0;
      this.threshold, this.recoveryTimeout := threshold, recoveryTimeout;
      history := [];
    }

    function Abs(): Core
      reads this
    {
      Core(state, failureCount, lastFailureTime)
    }

    ghost predicate Valid()
      reads this
    {
      && Abs() == Replay(history, threshold, recoveryTimeout)
      && Answered(history, threshold, recoveryTimeout)
    }

    /** Only looks. */
    method IsOpen(now: int) returns (r: bool)
      requires Valid() && Clocked(history, now)
      ensures r == Blocks(Abs(), recoveryTimeout, now)
      ensures r <==> !Admits(history, threshold, recoveryTimeout, now)
    {
      AdmissionByHistory(history, threshold, recoveryTimeout, now);
      if state != Open {
        return false;
      }
      return now - lastFailureTime <= recoveryTimeout;
    }

    /** May turn an open breaker into a half-open one. */
    method CanSend(now: int) returns (r: bool)
      requires Valid() && Clocked(history, now)
      modifies this
      ensures Valid() && history == old(history) + [Asked(now, r)] && Clocked(history, now)
      ensures r <==> Admits(old(history), threshold, recoveryTimeout, now)
      ensures Abs() == AfterAsk(old(Abs()), recoveryTimeout, now)
    {
      AdmissionByHistory(history, threshold, recoveryTimeout, now);
      r := false;
      match state {
        case Closed =>
          r := true;
        case Open =>
          if now - lastFailureTime > recoveryTimeout {
            state := HalfOpen;
            r := true;
          }
        case HalfOpen =>
          r := true;
      }
      assert (history + [Asked(now, r)])[..|history|] == history;
      history := history + [Asked(now, r)];
    }

    /** True if the breaker was tripped. */
    method RecordSuccess() returns (wasOpen: bool)
      requires Valid()
      modifies this
      ensures Valid() && history == old(history) + [Succeeded]
      ensures state == Closed && Abs() == AfterSuccess(old(Abs()))
      ensures wasOpen <==> FailuresSinceSuccess(old(history)) >= TripsAt(threshold)
      ensures wasOpen <==> old(state) != Closed
    {
      RefinesHistory(history, threshold, recoveryTimeout);
      wasOpen := state != Closed;
      failureCount := 0;
      state := Closed;
      assert (history + [Succeeded])[..|history|] == history;
      history := history + [Succeeded];
    }

    method RecordFailure(now: int)
      requires Valid() && Clocked(history, now)
      modifies this
      ensures Valid() && history == old(history) + [Failed(now)] && Clocked(history, now)
      ensures Abs() == AfterFailure(old(Abs()), threshold, now)
      ensures state != HalfOpen
      ensures state == Open <==> FailuresSinceSuccess(old(history)) + 1 >= TripsAt(threshold)
    {
      failureCount := failureCount + 1;
      lastFailureTime := now;
      if failureCount >= threshold || state == HalfOpen {
        state := Open;
      }
      assert (history + [Failed(now)])[..|history|] == history;
      history := history + [Failed(now)];
      RefinesHistory(history, threshold, recoveryTimeout);
    }

    method StateString() returns (r: string)
      ensures r == StateName(state)
    {
      r := StateName(state);
    }
  }
}
