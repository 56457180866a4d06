/** How breaker states reach the dashboard: health checks and proxied results are recorded on the breaker and
    then published to the collector. */
module Publishing {
  import opened Stats
  import opened Metrics
  import CB = CircuitBreaker

  // ------------------------------------------------------------------ the event log

  /** Walks the events of one server from `state`; None if one of them does not start where the previous one
      ended. */
  function WalkEvents(log: seq<CircuitEvent>, url: Url, state: string): (r: (bool, string)) {
    if log == [] then (true, state) else
      var (ok, at) := WalkEvents(log[..|log| - 1], url, state);
      var e := log[|log| - 1];
      if e.serverUrl != url then (ok, at) else (ok && e.oldState == at && e.newState != at, e.newState)
  }

  /** Everything a book of fresh records may have gone through. */
  ghost predicate FreshBook(b: Book) {
    b.log == [] && forall u :: u in b.servers ==> b.servers[u].circuitState == "CLOSED"
  }

  /** One call keeps each server's events chained and ending in its shown state. */
  lemma RecordKeepsChain(b: Book, u: Url, op: Op, url: Url)
    requires url in b.servers && WalkEvents(b.log, url, "CLOSED") == (true, b.servers[url].circuitState)
    ensures var b' := Record(b, u, op);
            url in b'.servers && WalkEvents(b'.log, url, "CLOSED") == (true, b'.servers[url].circuitState)
  {
    var b' := Record(b, u, op);
    if b'.log != b.log {
      assert b'.log[..|b'.log| - 1] == b.log;
    }
  }

  /** Over every run of collector calls, each server's events in the full log chain old state to new state,
      from CLOSED to the state shown now, and never repeat a state. */
  lemma {:induction false} EventsChain(b: Book, calls: seq<(Url, Op)>, url: Url)
    requires FreshBook(b) && url in b.servers
    ensures var b' := RecordAll(b, calls);
            url in b'.servers && WalkEvents(b'.log, url, "CLOSED") == (true, b'.servers[url].circuitState)
  {
    if calls != [] {
      EventsChain(b, calls[..|calls| - 1], url);
      RecordKeepsChain(RecordAll(b, calls[..|calls| - 1]), calls[|calls| - 1].0, calls[|calls| - 1].1, url);
    }
  }

  /** Every event in the full log carries the name of its server. */
  lemma {:induction false} EventsNamed(b: Book, calls: seq<(Url, Op)>)
    requires b.log == []
    ensures var b' := RecordAll(b, calls);
            forall e :: e in b'.log ==> e.serverUrl in b'.servers && e.serverName == b'.servers[e.serverUrl].name
  {
    if calls != [] {
      EventsNamed(b, calls[..|calls| - 1]);
    }
  }

  // ------------------------------------------------------------------ record and publish

  /** The breakers of a service, by their histories, and its book. */
  datatype Service = Service(book: Book, histories: map<Url, CB.History>)

  datatype Limits = Limits(threshold: int, timeout: int)

  function CoreOf(h: CB.History, limits: Limits): CB.Core {
    CB.Replay(h, limits.threshold, limits.timeout)
  }

  /** A result is recorded on the breaker of `url`; a recovering success clears the latencies; the breaker's
      new state is published. */
  function Publish(book: Book, before: CB.Core, after: CB.Core, url: Url, success: bool): Book {
    var cleared := if success && before.state != CB.Closed then Record(book, url, Clear) else book;
    Record(cleared, url, Circuit(CB.StateName(after.state)))
  }

  datatype Step =
    | Result(url: Url, success: bool, at: int)  // record on the breaker, then publish
    | Admit(url: Url, at: int)                  // the balancer asks the chosen breaker
    | Call(url: Url, op: Op)                    // any other collector call

  function Event(success: bool, at: int): CB.Event {
    if success then CB.Succeeded else CB.Failed(at)
  }

  function Next(s: Service, limits: Limits, step: Step): Service {
    match step
    case Result(url, success, at) =>
      if url !in s.histories then s else
        var h := s.histories[url] + [Event(success, at)];
        Service(Publish(s.book, CoreOf(s.histories[url], limits), CoreOf(h, limits), url, success),
                s.histories[url := h])
    case Admit(url, at) =>
      if url !in s.histories then s else
        var h := s.histories[url];
        var answer := !CB.Blocks(CoreOf(h, limits), limits.timeout, at);
        s.(histories := s.histories[url := h + [CB.Asked(at, answer)]])
    case Call(url, op) => s.(book := Record(s.book, url, op))
  }

  function RunAll(s: Service, limits: Limits, steps: seq<Step>): Service {
    if steps == [] then s
    else Next(RunAll(s, limits, steps[..|steps| - 1]), limits, steps[|steps| - 1])
  }

  /** Breaker states reach the collector in no other way. */
  ghost predicate Honest(steps: seq<Step>) {
    forall i :: 0 <= i < |steps| && steps[i].Call? ==> !steps[i].op.Circuit?
  }

  /** The collector shows CLOSED for a closed breaker and OPEN for any other. */
  ghost predicate Shows(s: Service, limits: Limits) {
    && s.histories.Keys == s.book.servers.Keys
    && forall u :: u in s.histories ==> ShowsOne(s, limits, u)
  }

  ghost predicate ShowsOne(s: Service, limits: Limits, u: Url)
    requires u in s.histories && u in s.book.servers
  {
    s.book.servers[u].circuitState == (if CoreOf(s.histories[u], limits).state == CB.Closed then "CLOSED" else "OPEN")
  }

  lemma AppendedCore(h: CB.History, e: CB.Event, limits: Limits)
    ensures var c, c' := CoreOf(h, limits), CoreOf(h + [e], limits);
            match e
            case Succeeded => c' == CB.AfterSuccess(c)
            case Failed(at) => c' == CB.AfterFailure(c, limits.threshold, at)
            case Asked(at, _) => c' == CB.AfterAsk(c, limits.timeout, at)
  {
    assert (h + [e])[..|h|] == h;
  }

  lemma PublishShows(book: Book, before: CB.Core, after: CB.Core, url: Url, success: bool)
    requires url in book.servers
    ensures var b := Publish(book, before, after, url, success);
            && b.servers.Keys == book.servers.Keys
            && b.servers[url].circuitState == CB.StateName(after.state)
            && forall u :: u in book.servers && u != url ==> b.servers[u] == book.servers[u]
  {
  }

  lemma ResultShows(s: Service, limits: Limits, url: Url, success: bool, at: int)
    requires Shows(s, limits) && url in s.histories
    ensures Shows(Next(s, limits, Result(url, success, at)), limits)
  {
    var s' := Next(s, limits, Result(url, success, at));
    AppendedCore(s.histories[url], Event(success, at), limits);
    PublishShows(s.book, CoreOf(s.histories[url], limits), CoreOf(s'.histories[url], limits), url, success);
    forall u | u in s'.histories
      ensures ShowsOne(s', limits, u)
    {
      assert ShowsOne(s, limits, u);
    }
  }

  lemma AdmitShows(s: Service, limits: Limits, url: Url, at: int)
    requires Shows(s, limits) && url in s.histories
    ensures Shows(Next(s, limits, Admit(url, at)), limits)
  {
    var s' := Next(s, limits, Admit(url, at));
    var answer := !CB.Blocks(CoreOf(s.histories[url], limits), limits.timeout, at);
    AppendedCore(s.histories[url], CB.Asked(at, answer), limits);
    forall u | u in s'.histories
      ensures ShowsOne(s', limits, u)
    {
      assert ShowsOne(s, limits, u);
    }
  }

  lemma CallShows(s: Service, limits: Limits, url: Url, op: Op)
    requires Shows(s, limits) && !op.Circuit?
    ensures Shows(Next(s, limits, Call(url, op)), limits)
  {
    var s' := Next(s, limits, Call(url, op));
    assert s'.book.servers.Keys == s.book.servers.Keys;
    forall u | u in s'.histories
      ensures ShowsOne(s', limits, u)
    {
      assert ShowsOne(s, limits, u);
      assert s'.book.servers[u].circuitState == s.book.servers[u].circuitState;
    }
  }

  lemma NextShows(s: Service, limits: Limits, step: Step)
    requires Shows(s, limits) && (step.Call? ==> !step.op.Circuit?)
    ensures Shows(Next(s, limits, step), limits)
  {
    match step
    case Result(url, success, at) =>
      if url in s.histories {
        ResultShows(s, limits, url, success, at);
      }
    case Admit(url, at) =>
      if url in s.histories {
        AdmitShows(s, limits, url, at);
      }
    case Call(url, op) => CallShows(s, limits, url, op);
  }

  /** A service whose breakers and records are new. */
  ghost predicate NewService(s: Service) {
    && s.book.log == []
    && (forall u :: u in s.histories <==> u in s.book.servers)
    && forall u {:trigger NewServer(s, u)} :: u in s.histories ==> NewServer(s, u)
  }

  ghost predicate NewServer(s: Service, u: Url) {
    u in s.histories && u in s.book.servers && s.histories[u] == [] && s.book.servers[u].circuitState == "CLOSED"
  }

  lemma NewShows(s: Service, limits: Limits)
    requires NewService(s)
    ensures Shows(s, limits)
  {
    assert s.histories.Keys == s.book.servers.Keys;
    forall u | u in s.histories
      ensures ShowsOne(s, limits, u)
    {
      assert NewServer(s, u);
    }
  }

  /** With each record-and-publish as one step, over every run: a server is shown CLOSED exactly when its
      breaker is closed, OPEN otherwise, and so never HALF_OPEN. */
  lemma {:induction false} PublishedStateTracksBreaker(s: Service, limits: Limits, steps: seq<Step>, u: Url)
    requires NewService(s) && Honest(steps) && u in s.histories
    ensures var r := RunAll(s, limits, steps);
            && Shows(r, limits)
            && u in r.histories
            && (r.book.servers[u].circuitState == "CLOSED" <==> CoreOf(r.histories[u], limits).state == CB.Closed)
            && r.book.servers[u].circuitState != "HALF_OPEN"
  {
    if steps != [] {
      var front, last := steps[..|steps| - 1], steps[|steps| - 1];
      PublishedStateTracksBreaker(s, limits, front, u);
      NextShows(RunAll(s, limits, front), limits, last);
      assert u in RunAll(s, limits, steps).histories;
    } else {
      NewShows(s, limits);
    }
    assert ShowsOne(RunAll(s, limits, steps), limits, u);
  }

  // ------------------------------------------------------------------ what else a result does to the record

  /** The failures since the last success have reached the threshold. */
  predicate Tripped(h: CB.History, limits: Limits) {
    CB.FailuresSinceSuccess(h) >= (if limits.threshold < 1 then 1 else limits.threshold)
  }

  /** Counters, health and identity of two records agree. */
  predicate SameTraffic(a: ServerStats, b: ServerStats) {
    && a.name == b.name && a.url == b.url && a.weight == b.weight && a.isHealthy == b.isHealthy
    && a.activeConnections == b.activeConnections && a.totalRequests == b.totalRequests
    && a.successCount == b.successCount && a.failureCount == b.failureCount && a.retryCount == b.retryCount
    && a.highPriorityCount == b.highPriorityCount && a.lowPriorityCount == b.lowPriorityCount
  }

  predicate SameLatencies(a: ServerStats, b: ServerStats) {
    a.recentLatencies == b.recentLatencies && a.avgLatencyMs == b.avgLatencyMs && a.p95LatencyMs == b.p95LatencyMs
  }

  predicate NoLatencies(a: ServerStats) {
    a.recentLatencies == [] && a.avgLatencyMs == 0.0 && a.p95LatencyMs == 0.0
  }

  /** A result wipes the latencies of its server exactly if it is a success that ends an outage; it leaves the
      counters and the health alone, and every other server altogether. */
  lemma ResultEffect(s: Service, limits: Limits, url: Url, success: bool, at: int)
    requires url in s.histories && url in s.book.servers
    requires CB.Answered(s.histories[url], limits.threshold, limits.timeout)
    ensures var r := Next(s, limits, Result(url, success, at));
            && r.book.servers.Keys == s.book.servers.Keys
            && SameTraffic(r.book.servers[url], s.book.servers[url])
            && (success && Tripped(s.histories[url], limits) ==> NoLatencies(r.book.servers[url]))
            && (!(success && Tripped(s.histories[url], limits)) ==>
                  SameLatencies(r.book.servers[url], s.book.servers[url]))
            && forall u :: u in s.book.servers && u != url ==> r.book.servers[u] == s.book.servers[u]
  {
    CB.RefinesHistory(s.histories[url], limits.threshold, limits.timeout);
  }

  lemma {:induction false} HistoriesAnswered(s: Service, limits: Limits, steps: seq<Step>, u: Url)
    requires NewService(s) && u in s.histories
    ensures var r := RunAll(s, limits, steps);
            u in r.histories && u in r.book.servers && CB.Answered(r.histories[u], limits.threshold, limits.timeout)
  {
    if steps == [] {
      assert NewServer(s, u);
    } else {
      HistoriesAnswered(s, limits, steps[..|steps| - 1], u);
      StepAnswered(RunAll(s, limits, steps[..|steps| - 1]), limits, steps[|steps| - 1], u);
    }
  }

  lemma StepAnswered(s: Service, limits: Limits, step: Step, u: Url)
    requires u in s.histories && u in s.book.servers
    requires CB.Answered(s.histories[u], limits.threshold, limits.timeout)
    ensures var r := Next(s, limits, step);
            u in r.histories && u in r.book.servers && CB.Answered(r.histories[u], limits.threshold, limits.timeout)
  {
    var h := s.histories[u];
    match step
    case Result(_, success, at) =>
      assert (h + [Event(success, at)])[..|h|] == h;
    case Admit(_, at) =>
      var answer := !CB.Blocks(CoreOf(h, limits), limits.timeout, at);
      assert (h + [CB.Asked(at, answer)])[..|h|] == h;
    case Call(_, _) =>
  }

  /** Over every run of a service: the next result wipes the latencies of its server exactly if it is a success
      after at least threshold failures since the last one. */
  lemma ResultEffectOverRuns(s: Service, limits: Limits, steps: seq<Step>, url: Url, success: bool, at: int)
    requires NewService(s) && url in s.histories
    ensures var before := RunAll(s, limits, steps);
            var after := RunAll(s, limits, steps + [Result(url, success, at)]);
            && url in before.book.servers && url in after.book.servers && url in before.histories
            && SameTraffic(after.book.servers[url], before.book.servers[url])
            && (success && Tripped(before.histories[url], limits) ==> NoLatencies(after.book.servers[url]))
            && (!(success && Tripped(before.histories[url], limits)) ==>
                  SameLatencies(after.book.servers[url], before.book.servers[url]))
  {
    HistoriesAnswered(s, limits, steps, url);
    assert (steps + [Result(url, success, at)])[..|steps|] == steps;
    ResultEffect(RunAll(s, limits, steps), limits, url, success, at);
  }

  /** The balancer's question is answered by the history and changes nothing but that history. */
  lemma AdmitEffect(s: Service, limits: Limits, url: Url, at: int)
    requires url in s.histories
    requires CB.Answered(s.histories[url], limits.threshold, limits.timeout) && CB.Clocked(s.histories[url], at)
    ensures var h := s.histories[url];
            var r := Next(s, limits, Admit(url, at));
            && r.book == s.book
            && r.histories == s.histories[url := h + [CB.Asked(at, CB.Admits(h, limits.threshold, limits.timeout, at))]]
  {
    CB.AdmissionByHistory(s.histories[url], limits.threshold, limits.timeout, at);
  }
}
