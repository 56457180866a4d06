/** Concurrent proxied requests: every request is a short program of collector calls, each of which holds the
    collector's mutex, so a run is any interleaving of those calls. */
module ProxyRuns {
  import opened Stats
  import opened Metrics

  /** How the attempt to reach the backend ends. */
  datatype Outcome = RequestNotBuilt | BackendFailed(latencyMs: real) | Responded(latencyMs: real, status: int)

  predicate Succeeds(o: Outcome) {
    o.Responded? && o.status < 500
  }

  /** The collector calls along each path of the proxy. */
  function Program(o: Outcome, priority: string): seq<Op> {
    match o
    case RequestNotBuilt => [Start, End(0.0, false)]
    case BackendFailed(latency) => [Start, End(latency, false)]
    case Responded(latency, status) => [Start, End(latency, status < 500), Priority(priority == "HIGH")]
  }

  function About(url: Url, ops: seq<Op>): seq<(Url, Op)> {
    seq(|ops|, i requires 0 <= i < |ops| => (url, ops[i]))
  }

  lemma RecordOneMore(b: Book, url: Url, ops: seq<Op>, op: Op)
    ensures RecordAll(b, About(url, ops + [op])) == Record(RecordAll(b, About(url, ops)), url, op)
  {
    assert About(url, ops + [op])[..|ops|] == About(url, ops);
  }

  /** One request on its own. */
  method ProxyToBackend(metrics: Collector, target: Url, priority: string, outcome: Outcome)
    requires metrics.Valid()
    modifies metrics
    ensures metrics.Valid()
    ensures metrics.Abs() == RecordAll(old(metrics.Abs()), About(target, Program(outcome, priority)))
  {
    ghost var b := metrics.Abs();
    assert RecordAll(b, About(target, [])) == b;
    RecordOneMore(b, target, [], Start);
    assert [] + [Start] == [Start];
    metrics.RecordStart(target);
    match outcome {
      case RequestNotBuilt =>
        metrics.RecordEnd(target, 0.0, false);
        RecordOneMore(b, target, [Start], End(0.0, false));
        assert [Start] + [End(0.0, false)] == Program(outcome, priority);
      case BackendFailed(latency) =>
        metrics.RecordEnd(target, latency, false);
        RecordOneMore(b, target, [Start], End(latency, false));
        assert [Start] + [End(latency, false)] == Program(outcome, priority);
      case Responded(latency, status) =>
        var isSuccess := status < 500;
        metrics.RecordEnd(target, latency, isSuccess);
        RecordOneMore(b, target, [Start], End(latency, isSuccess));
        metrics.RecordPriority(target, priority);
        RecordOneMore(b, target, [Start] + [End(latency, isSuccess)], Priority(priority == "HIGH"));
        assert [Start] + [End(latency, isSuccess)] + [Priority(priority == "HIGH")] == Program(outcome, priority);
    }
  }

  /** Calls about one server change its record only. */
  lemma {:induction false} CallsApply(b: Book, url: Url, ops: seq<Op>)
    requires url in b.servers && forall i :: 0 <= i < |ops| ==> !ops[i].Circuit?
    ensures RecordAll(b, About(url, ops)) == Book(b.servers[url := ApplyAll(b.servers[url], ops)], b.log)
  {
    if ops == [] {
      assert b.servers[url := b.servers[url]] == b.servers;
    } else {
      var front := ops[..|ops| - 1];
      CallsApply(b, url, front);
      assert ops == front + [ops[|ops| - 1]];
      RecordOneMore(b, url, front, ops[|ops| - 1]);
    }
  }

  /** What one request leaves behind in the record of its server: one more request, a success exactly if a response
      below 500 came, a priority exactly if any response came, one latency sample, and no open connection. */
  lemma ProxyEffect(b: Book, url: Url, outcome: Outcome, priority: string)
    requires url in b.servers && 0 <= b.servers[url].activeConnections
    ensures var r := RecordAll(b, About(url, Program(outcome, priority)));
            && r.log == b.log && url in r.servers && r.servers == b.servers[url := r.servers[url]]
            && ServedOnce(b.servers[url], r.servers[url], outcome, priority == "HIGH")
  {
    CallsApply(b, url, Program(outcome, priority));
    ProgramServes(b.servers[url], outcome, priority);
  }

  lemma ProgramServes(st: ServerStats, outcome: Outcome, priority: string)
    requires 0 <= st.activeConnections
    ensures ServedOnce(st, ApplyAll(st, Program(outcome, priority)), outcome, priority == "HIGH")
  {
    match outcome
    case RequestNotBuilt =>
      TwoCalls(st, Start, End(0.0, false));
      StartAndEnd(st, 0.0, false);
    case BackendFailed(latency) =>
      TwoCalls(st, Start, End(latency, false));
      StartAndEnd(st, latency, false);
    case Responded(latency, status) =>
      ThreeCalls(st, Start, End(latency, status < 500), Priority(priority == "HIGH"));
      StartAndEnd(st, latency, status < 500);
  }

  /** Counters after a request without its priority. */
  lemma StartAndEnd(st: ServerStats, latency: real, success: bool)
    requires 0 <= st.activeConnections
    ensures var r := Apply(Apply(st, Start), End(latency, success));
            && r.activeConnections == st.activeConnections && r.totalRequests == st.totalRequests + 1
            && r.successCount == st.successCount + (if success then 1 else 0)
            && r.failureCount == st.failureCount + (if success then 0 else 1)
            && r.highPriorityCount == st.highPriorityCount && r.lowPriorityCount == st.lowPriorityCount
            && r.recentLatencies == Push(st.recentLatencies, latency)
            && r.isHealthy == st.isHealthy && r.circuitState == st.circuitState && r.retryCount == st.retryCount
  {
  }

  predicate ServedOnce(before: ServerStats, after: ServerStats, outcome: Outcome, high: bool) {
    var served, answered := outcome.Responded? && outcome.status < 500, outcome.Responded?;
    && after.activeConnections == before.activeConnections
    && after.totalRequests == before.totalRequests + 1
    && after.successCount == before.successCount + (if served then 1 else 0)
    && after.failureCount == before.failureCount + (if served then 0 else 1)
    && after.highPriorityCount == before.highPriorityCount + (if answered && high then 1 else 0)
    && after.lowPriorityCount == before.lowPriorityCount + (if answered && !high then 1 else 0)
    && after.recentLatencies == Push(before.recentLatencies, if outcome.RequestNotBuilt? then 0.0 else outcome.latencyMs)
    && after.isHealthy == before.isHealthy && after.circuitState == before.circuitState
    && after.retryCount == before.retryCount
  }

  lemma OneMoreCall(st: ServerStats, ops: seq<Op>, op: Op)
    ensures ApplyAll(st, ops + [op]) == Apply(ApplyAll(st, ops), op)
  {
    assert (ops + [op])[..|ops|] == ops;
  }

  lemma TwoCalls(st: ServerStats, a: Op, b: Op)
    ensures ApplyAll(st, [a, b]) == Apply(Apply(st, a), b)
  {
    assert ApplyAll(st, []) == st;
    OneMoreCall(st, [], a);
    OneMoreCall(st, [a], b);
    assert [] + [a] == [a] && [a] + [b] == [a, b];
  }

  lemma ThreeCalls(st: ServerStats, a: Op, b: Op, c: Op)
    ensures ApplyAll(st, [a, b, c]) == Apply(Apply(Apply(st, a), b), c)
  {
    var two := Apply(Apply(st, a), b);
    TwoCalls(st, a, b);
    OneMoreCall(st, [a, b], c);
    assert [a, b] + [c] == [a, b, c];
    assert ApplyAll(st, [a, b, c]) == Apply(two, c);
  }

  // ------------------------------------------------------------------ interleavings

  /** A request that has made the first `pc` calls of its program. */
  datatype Request = Request(target: Url, outcome: Outcome, priority: string, pc: nat)

  datatype System = System(book: Book, requests: map<nat, Request>)

  datatype Action =
    | Arrive(id: nat, target: Url, outcome: Outcome, priority: string)
    | Advance(id: nat)           // the request makes its next call
    | Other(url: Url, op: Op)    // a call by the monitor, the breaker middleware or the retry counter

  /** Calls that leave the request counters alone. */
  predicate IsOther(op: Op) {
    op.Retry? || op.Health? || op.Circuit? || op.Clear?
  }

  function Next(s: System, a: Action): System {
    match a
    case Arrive(id, target, outcome, priority) =>
      if id in s.requests then s
      else s.(requests := s.requests[id := Request(target, outcome, priority, 0)])
    case Advance(id) =>
      if id !in s.requests || s.requests[id].pc >= |Program(s.requests[id].outcome, s.requests[id].priority)| then s
      else
        var r := s.requests[id];
        System(Record(s.book, r.target, Program(r.outcome, r.priority)[r.pc]),
               s.requests[id := r.(pc := r.pc + 1)])
    case Other(url, op) => if IsOther(op) then s.(book := Record(s.book, url, op)) else s
  }

  function Run(s: System, actions: seq<Action>): System {
    if actions == [] then s else Next(Run(s, actions[..|actions| - 1]), actions[|actions| - 1])
  }

  function Advances(id: nat, k: nat): (actions: seq<Action>)
    ensures |actions| == k
  {
    seq(k, _ => Advance(id))
  }

  /** An undisturbed request makes the calls of its program one after the other, and nothing else happens: all of
      them together are what the method above does to the collector. */
  lemma {:induction false} UndisturbedRequest(s: System, id: nat, k: nat)
    requires id in s.requests && s.requests[id].pc == 0
    requires k <= |Program(s.requests[id].outcome, s.requests[id].priority)|
    ensures var q := s.requests[id];
            Run(s, Advances(id, k))
            == System(RecordAll(s.book, About(q.target, Program(q.outcome, q.priority)[..k])),
                      s.requests[id := q.(pc := k)])
  {
    var q := s.requests[id];
    var ops := Program(q.outcome, q.priority);
    if k == 0 {
      assert s.requests[id := q.(pc := 0)] == s.requests;
    } else {
      UndisturbedRequest(s, id, k - 1);
      assert Advances(id, k)[..k - 1] == Advances(id, k - 1);
      assert ops[..k] == ops[..k - 1] + [ops[k - 1]];
      RecordOneMore(s.book, q.target, ops[..k - 1], ops[k - 1]);
    }
  }

  predicate Started(r: Request) { r.pc >= 1 }
  predicate InFlight(r: Request) { r.pc == 1 }
  predicate Ended(r: Request) { r.pc >= 2 }
  predicate EndedWell(r: Request) { r.pc >= 2 && Succeeds(r.outcome) }
  predicate EndedBadly(r: Request) { r.pc >= 2 && !Succeeds(r.outcome) }
  predicate Classified(r: Request) { r.pc >= 3 }
  predicate GotResponse(r: Request) { r.outcome.Responded? }

  /** The requests to `url` in a given situation. */
  function Which(requests: map<nat, Request>, url: Url, p: Request -> bool): set<nat> {
    set id | id in requests && requests[id].target == url && p(requests[id])
  }

  function HowMany(requests: map<nat, Request>, url: Url, p: Request -> bool): nat {
    |Which(requests, url, p)|
  }

  function One(b: bool): int {
    if b then 1 else 0
  }

  /** Changing one request changes the count by that request alone. */
  lemma CountMoves(requests: map<nat, Request>, id: nat, r: Request, url: Url, p: Request -> bool)
    ensures HowMany(requests[id := r], url, p)
         == HowMany(requests, url, p) + One(r.target == url && p(r))
            - One(id in requests && requests[id].target == url && p(requests[id]))
  {
    var others := Which(requests, url, p) - {id};
    WithOrWithout(Which(requests, url, p), others, id);
    WithOrWithout(Which(requests[id := r], url, p), others, id);
  }

  lemma WithOrWithout(all: set<nat>, others: set<nat>, id: nat)
    requires id !in others && forall j :: j != id ==> (j in all <==> j in others)
    ensures |all| == |others| + One(id in all)
  {
    assert all == if id in all then others + {id} else others;
  }

  /** The record of a server tells exactly how many requests to it are where. */
  ghost predicate Tallies(s: System, url: Url) {
    url in s.book.servers ==>
      var st := s.book.servers[url];
      && st.activeConnections == HowMany(s.requests, url, InFlight)
      && st.totalRequests == HowMany(s.requests, url, Ended)
      && st.successCount == HowMany(s.requests, url, EndedWell)
      && st.failureCount == HowMany(s.requests, url, EndedBadly)
      && st.highPriorityCount + st.lowPriorityCount == HowMany(s.requests, url, Classified)
  }

  /** What the next call of a request does to the counters of its server, given that it is counted active. */
  lemma CallMovesCounters(r: Request, st: ServerStats)
    requires r.pc < |Program(r.outcome, r.priority)|
    requires r.pc == 1 ==> 1 <= st.activeConnections
    ensures var st' := Apply(st, Program(r.outcome, r.priority)[r.pc]);
            var r' := r.(pc := r.pc + 1);
            && st'.activeConnections == st.activeConnections + One(InFlight(r')) - One(InFlight(r))
            && st'.totalRequests == st.totalRequests + One(Ended(r')) - One(Ended(r))
            && st'.successCount == st.successCount + One(EndedWell(r')) - One(EndedWell(r))
            && st'.failureCount == st.failureCount + One(EndedBadly(r')) - One(EndedBadly(r))
            && st'.highPriorityCount + st'.lowPriorityCount
                 == st.highPriorityCount + st.lowPriorityCount + One(Classified(r')) - One(Classified(r))
  {
  }

  lemma AdvanceTallies(s: System, id: nat, url: Url)
    requires Tallies(s, url)
    ensures Tallies(Next(s, Advance(id)), url)
  {
    if id in s.requests && s.requests[id].pc < |Program(s.requests[id].outcome, s.requests[id].priority)| {
      var r := s.requests[id];
      var r' := r.(pc := r.pc + 1);
      if r.target == url && url in s.book.servers {
        if InFlight(r) {
          assert id in Which(s.requests, url, InFlight);
        }
        CallMovesCounters(r, s.book.servers[url]);
      }
      CountMoves(s.requests, id, r', url, InFlight);
      CountMoves(s.requests, id, r', url, Ended);
      CountMoves(s.requests, id, r', url, EndedWell);
      CountMoves(s.requests, id, r', url, EndedBadly);
      CountMoves(s.requests, id, r', url, Classified);
    }
  }

  lemma ArriveTallies(s: System, id: nat, target: Url, outcome: Outcome, priority: string, url: Url)
    requires Tallies(s, url)
    ensures Tallies(Next(s, Arrive(id, target, outcome, priority)), url)
  {
    if id !in s.requests {
      var r := Request(target, outcome, priority, 0);
      CountMoves(s.requests, id, r, url, InFlight);
      CountMoves(s.requests, id, r, url, Ended);
      CountMoves(s.requests, id, r, url, EndedWell);
      CountMoves(s.requests, id, r, url, EndedBadly);
      CountMoves(s.requests, id, r, url, Classified);
    }
  }

  /** A fresh collector and no requests yet. */
  ghost predicate FreshSystem(s: System) {
    && s.requests == map[]
    && forall u :: u in s.book.servers ==>
         s.book.servers[u] == FreshStats(s.book.servers[u].name, u, s.book.servers[u].weight)
  }

  /** Over every interleaving the tallies are exact. */
  lemma {:induction false} RunTallies(s: System, actions: seq<Action>, url: Url)
    requires FreshSystem(s)
    ensures Tallies(Run(s, actions), url)
    ensures Run(s, actions).book.servers.Keys == s.book.servers.Keys
  {
    if actions != [] {
      var front, last := actions[..|actions| - 1], actions[|actions| - 1];
      RunTallies(s, front, url);
      match last
      case Arrive(id, target, outcome, priority) => ArriveTallies(Run(s, front), id, target, outcome, priority, url);
      case Advance(id) => AdvanceTallies(Run(s, front), id, url);
      case Other(_, _) =>
    }
  }

  lemma PartsAddUp(all: set<nat>, a: set<nat>, b: set<nat>)
    requires all == a + b && a !! b
    ensures |all| == |a| + |b|
  {
  }

  /** Request conservation, over every interleaving of proxied requests and other calls on a fresh collector:
      whatever was started is finished or active, whatever is finished succeeded or failed, no more requests
      are classified by priority than have finished, and the counters are those very numbers of requests. */
  lemma RequestsConserved(s: System, actions: seq<Action>, url: Url)
    requires FreshSystem(s) && url in s.book.servers
    ensures var r := Run(s, actions);
            && url in r.book.servers
            && var st := r.book.servers[url];
               && HowMany(r.requests, url, Started) == st.totalRequests + st.activeConnections
               && st.activeConnections == HowMany(r.requests, url, InFlight)
               && st.totalRequests == st.successCount + st.failureCount
               && st.successCount == HowMany(r.requests, url, EndedWell)
               && st.highPriorityCount + st.lowPriorityCount == HowMany(r.requests, url, Classified)
               && st.highPriorityCount + st.lowPriorityCount <= st.totalRequests
  {
    RunTallies(s, actions, url);
    Partition(Run(s, actions).requests, url);
  }

  lemma Partition(q: map<nat, Request>, url: Url)
    ensures HowMany(q, url, Started) == HowMany(q, url, InFlight) + HowMany(q, url, Ended)
    ensures HowMany(q, url, Ended) == HowMany(q, url, EndedWell) + HowMany(q, url, EndedBadly)
    ensures HowMany(q, url, Classified) <= HowMany(q, url, Ended)
  {
    PartsAddUp(Which(q, url, Started), Which(q, url, InFlight), Which(q, url, Ended));
    PartsAddUp(Which(q, url, Ended), Which(q, url, EndedWell), Which(q, url, EndedBadly));
    PartsAddUp(Which(q, url, Ended), Which(q, url, Classified), Which(q, url, Ended) - Which(q, url, Classified));
  }

  /** The clamp at zero never fires: whenever a request is about to record its end, its server has an active
      connection. */
  lemma ClampNeverFires(s: System, actions: seq<Action>, id: nat)
    requires FreshSystem(s)
    requires var r := Run(s, actions);
             id in r.requests && InFlight(r.requests[id]) && r.requests[id].target in s.book.servers
    ensures var r := Run(s, actions);
            var url := r.requests[id].target;
            url in r.book.servers && 1 <= r.book.servers[url].activeConnections
  {
    var r := Run(s, actions);
    var url := r.requests[id].target;
    RunTallies(s, actions, url);
    assert id in Which(r.requests, url, InFlight);
  }

  /** Once every request has run its program, the priority counters count the responses that came back. */
  lemma PrioritiesAtRest(s: System, actions: seq<Action>, url: Url)
    requires FreshSystem(s) && url in s.book.servers
    requires forall id :: id in Run(s, actions).requests ==>
               var r := Run(s, actions).requests[id]; r.pc == |Program(r.outcome, r.priority)|
    ensures var r := Run(s, actions);
            && url in r.book.servers
            && r.book.servers[url].activeConnections == 0
            && r.book.servers[url].highPriorityCount + r.book.servers[url].lowPriorityCount
                 == HowMany(r.requests, url, GotResponse)
  {
    RunTallies(s, actions, url);
    var q := Run(s, actions).requests;
    assert Which(q, url, InFlight) == {};
    assert Which(q, url, Classified) == Which(q, url, GotResponse);
  }
}
