/** The metrics collector: one record per server and the log of circuit changes, updated under one mutex. */
module Metrics {
  import opened Sums
  import opened Stats

  type Url = string

  datatype CircuitEvent = CircuitEvent(serverName: string, serverUrl: Url, oldState: string, newState: string)

  const MAX_EVENTS := 50

  /** What the collector stands for: the records, and every circuit change since it was created. */
  datatype Book = Book(servers: map<Url, ServerStats>, log: seq<CircuitEvent>)

  /** A call about `url`; a server that is not known is ignored. */
  function Record(b: Book, url: Url, op: Op): Book {
    if url !in b.servers then b else
      var s := b.servers[url];
      Book(b.servers[url := Apply(s, op)],
           if op.Circuit? && s.circuitState != op.state
           then b.log + [CircuitEvent(s.name, url, s.circuitState, op.state)] else b.log)
  }

  function RecordAll(b: Book, calls: seq<(Url, Op)>): Book {
    if calls == [] then b else
      var last := calls[|calls| - 1];
      Record(RecordAll(b, calls[..|calls| - 1]), last.0, last.1)
  }

  /** The records right after creation. */
  function NewServers(servers: seq<Url>, names: seq<string>, weights: seq<int>, n: nat): map<Url, ServerStats>
    requires n <= |servers|
  {
    if n == 0 then map[] else
      var i := n - 1;
      NewServers(servers, names, weights, i)[servers[i] :=
        FreshStats(if i < |names| then names[i] else servers[i], servers[i],
                   if i < |weights| && weights[i] > 0 then weights[i] else 1)]
  }

  /** A new record is healthy, closed, without traffic, and has a positive weight. */
  lemma {:induction false} NewServersAreFresh(servers: seq<Url>, names: seq<string>, weights: seq<int>, n: nat)
    requires n <= |servers|
    ensures var m := NewServers(servers, names, weights, n);
            && (forall u :: u in m <==> u in servers[..n])
            && (forall u :: u in m ==> m[u] == FreshStats(m[u].name, u, m[u].weight) && 1 <= m[u].weight)
            && (forall u :: u in m ==> m[u].url == u && m[u].isHealthy && m[u].circuitState == "CLOSED")
            && (forall u :: u in m ==> m[u].recentLatencies == [] && m[u].avgLatencyMs == m[u].p95LatencyMs == 0.0)
            && (forall u :: u in m ==> m[u].totalRequests == m[u].activeConnections == m[u].retryCount == 0)
            && (forall u :: u in m ==> m[u].successCount == m[u].failureCount == 0)
            && (forall u :: u in m ==> m[u].highPriorityCount == m[u].lowPriorityCount == 0)
  {
    if n != 0 {
      NewServersAreFresh(servers, names, weights, n - 1);
      assert servers[..n] == servers[..n - 1] + [servers[n - 1]];
    }
  }

  /** Each server has the name and the weight it was given; of a repeated server, the last entry counts. */
  lemma {:induction false} NewServerAt(servers: seq<Url>, names: seq<string>, weights: seq<int>, n: nat, i: nat)
    requires i < n <= |servers| && |names| == |weights| == |servers|
    requires forall j :: i < j < n ==> servers[j] != servers[i]
    ensures servers[i] in NewServers(servers, names, weights, n)
    ensures NewServers(servers, names, weights, n)[servers[i]]
         == FreshStats(names[i], servers[i], if weights[i] > 0 then weights[i] else 1)
  {
    if i < n - 1 {
      assert servers[n - 1] != servers[i];
      NewServerAt(servers, names, weights, n - 1, i);
    }
  }

  datatype DashboardSnapshot = DashboardSnapshot(
    servers: map<Url, ServerStats>,
    totalRequests: int,
    successRate: real,
    healthyCount: nat,
    totalCount: nat,
    circuitEvents: seq<CircuitEvent>)

  function Requests(servers: map<Url, ServerStats>): map<Url, int> {
    map u | u in servers :: servers[u].totalRequests
  }

  function Successes(servers: map<Url, ServerStats>): map<Url, int> {
    map u | u in servers :: servers[u].successCount
  }

  function HealthyOnes(servers: map<Url, ServerStats>): set<Url> {
    set u | u in servers && servers[u].isHealthy
  }

  function SuccessRate(ok: int, total: int): real {
    if total > 0 then ok as real / total as real * 100.0 else 0.0
  }

  /** A call about one server leaves all others alone, a call about an unknown server everything; the log grows
      by one event exactly when the circuit state of a known server changes. */
  lemma RecordTouchesOne(b: Book, url: Url, op: Op)
    ensures var r := Record(b, url, op);
            && r.servers.Keys == b.servers.Keys
            && (forall u :: u in b.servers && u != url ==> r.servers[u] == b.servers[u])
            && (url !in b.servers ==> r == b)
            && (r.log == b.log || (|r.log| == |b.log| + 1 && r.log[..|b.log|] == b.log))
            && (r.log != b.log <==>
                  url in b.servers && op.Circuit? && r.servers[url].circuitState != b.servers[url].circuitState)
  {
  }

  /** The totals over all records. */
  ghost function Summary(servers: map<Url, ServerStats>, events: seq<CircuitEvent>): DashboardSnapshot {
    DashboardSnapshot(servers,
                      Sum(Requests(servers), servers.Keys),
                      SuccessRate(Sum(Successes(servers), servers.Keys), Sum(Requests(servers), servers.Keys)),
                      |HealthyOnes(servers)|,
                      |servers|,
                      events)
  }

  /** The totals of the records already added up. */
  ghost predicate Tally(servers: map<Url, ServerStats>, done: set<Url>, total: int, ok: int, healthy: int) {
    && total == Sum(Requests(servers), done)
    && ok == Sum(Successes(servers), done)
    && healthy == |HealthyOnes(servers) * done|
  }

  lemma TallyOneMore(servers: map<Url, ServerStats>, done: set<Url>, total: int, ok: int, healthy: int, u: Url)
    requires Tally(servers, done, total, ok, healthy) && u !in done && u in servers
    ensures Tally(servers, done + {u}, total + servers[u].totalRequests, ok + servers[u].successCount,
                  healthy + (if servers[u].isHealthy then 1 else 0))
  {
    SumRemove(Requests(servers), done + {u}, u);
    SumRemove(Successes(servers), done + {u}, u);
    assert done + {u} - {u} == done;
    if servers[u].isHealthy {
      assert HealthyOnes(servers) * (done + {u}) == HealthyOnes(servers) * done + {u};
    } else {
      assert HealthyOnes(servers) * (done + {u}) == HealthyOnes(servers) * done;
    }
  }

  /** The loop that adds up all records. */
  method AddUp(servers: map<Url, ServerStats>) returns (total: int, ok: int, healthy: nat)
    ensures Tally(servers, servers.Keys, total, ok, healthy)
  {
    total, ok, healthy := 0, 0, 0;
    var urls := servers.Keys;
    ghost var done: set<Url> := {};
    while urls != {}
      invariant done !! urls && done + urls == servers.Keys
      invariant Tally(servers, done, total, ok, healthy)
      decreases urls
    {
      var u :| u in urls;
      TallyOneMore(servers, done, total, ok, healthy, u);
      total, ok := total + servers[u].totalRequests, ok + servers[u].successCount;
      if servers[u].isHealthy {
        healthy := healthy + 1;
      }
      urls, done := urls - {u}, done + {u};
    }
    assert done == servers.Keys;
  }

  /** Sorts in place; how is the library's business. */
  method SortFloats(a: array<real>)
    modifies a
    ensures a[..] == SortReals(old(a[..]))
  {
    var s := SortReals(a[..]);
    forall i | 0 <= i < a.Length {
      a[i] := s[i];
    }
  }

  /** The percentile of a window (P95IsSmallest says what that is), 0 for an empty one; the window itself is
      left alone. */
  method ComputeP95(latencies: seq<real>) returns (r: real)
    ensures latencies == [] ==> r == 0.0
    ensures latencies != [] ==> r == P95(latencies)
  {
    var n := |latencies|;
    if n == 0 {
      return 0.0;
    }
    var sorted := new real[n](i requires 0 <= i < n => latencies[i]);
    assert sorted[..] == latencies;
    SortFloats(sorted);
    var idx := (95 * n + 99) / 100 - 1;
    if idx < 0 {
      idx := 0;
    }
    if idx >= n {
      idx := n - 1;
    }
    assert idx == P95Index(n);
    r := sorted[..][idx];
  }

  method Average(xs: seq<real>) returns (r: real)
    requires xs != []
    ensures r == Mean(xs)
  {
    var sum := 0.0;
    var i := 0;
    while i < |xs|
      invariant 0 <= i <= |xs|
      invariant sum == Stats.Total(xs[..i])
    {
      assert xs[..i + 1][..i] == xs[..i];
      sum := sum + xs[i];
      i := i + 1;
    }
    assert xs[..i] == xs;
    r := sum / |xs| as real;
  }

  /** The window with one more sample, its average and its percentile. */
  method Latencies(window: seq<real>, latencyMs: real) returns (recent: seq<real>, avg: real, p95: real)
    ensures recent == Push(window, latencyMs) && recent != []
    ensures avg == Mean(recent) && p95 == P95(recent)
  {
    recent := window + [latencyMs];
    if |recent| > WINDOW {
      recent := recent[1..];
    }
    avg := Average(recent);
    p95 := ComputeP95(recent);
  }

  /** What the end of a request does to the record of its server. */
  method Finish(s: ServerStats, latencyMs: real, success: bool) returns (r: ServerStats)
    ensures r == Apply(s, End(latencyMs, success))
  {
    var active, successes, failures := s.activeConnections - 1, s.successCount, s.failureCount;
    if active < 0 {
      active := 0;
    }
    var recent, avg, p95 := Latencies(s.recentLatencies, latencyMs);
    if success {
      successes := successes + 1;
    } else {
      failures := failures + 1;
    }
    r := s.(activeConnections := active, totalRequests := s.totalRequests + 1,
            recentLatencies := recent, avgLatencyMs := avg, p95LatencyMs := p95,
            successCount := successes, failureCount := failures);
  }

  class Collector {
    var servers: map<Url, ServerStats>
    var circuitEvents: seq<CircuitEvent>
    ghost var log: seq<CircuitEvent>  // everything ever appended to circuitEvents

    constructor (urls: seq<Url>, names: seq<string>, weights: seq<int>)
      ensures Valid() && Abs() == Book(NewServers(urls, names, weights, |urls|), [])
    {
      servers, circuitEvents, log := map[], [], [];
      new;
      var i := 0;
      while i < |urls|
        invariant 0 <= i <= |urls|
        invariant servers == NewServers(urls, names, weights, i)
        invariant circuitEvents == log == []
      {
        var url := urls[i];
        var name, weight := url, 1;
        if i < |names| {
          name := names[i];
        }
        if i < |weights| && weights[i] > 0 {
          weight := weights[i];
        }
        servers := servers[url := FreshStats(name, url, weight)];
        i := i + 1;
      }
    }

    /** The retained events are the last 50 of the full log. */
    ghost predicate Valid()
      reads this
    {
      circuitEvents == LastN(log, MAX_EVENTS)
    }

    ghost function Abs(): Book
      reads this
    {
      Book(servers, log)
    }

    method RecordStart(url: Url)
      requires Valid()
      modifies this
      ensures Valid() && Abs() == Record(old(Abs()), url, Start)
    {
      if url in servers {
        var s := servers[url];
        servers := servers[url := s.(activeConnections := s.activeConnections + 1)];
      }
    }

    method RecordEnd(url: Url, latencyMs: real, success: bool)
      requires Valid()
      modifies this
      ensures Valid() && Abs() == Record(old(Abs()), url, End(latencyMs, success))
    {
      if url !in servers {
        return;
      }
      var s := servers[url];
      var ended := Finish(s, latencyMs, success);
      servers := servers[url := ended];
    }

    method RecordRetry(url: Url)
      requires Valid()
      modifies this
      ensures Valid() && Abs() == Record(old(Abs()), url, Retry)
    {
      if url in servers {
        var s := servers[url];
        servers := servers[url := s.(retryCount := s.retryCount + 1)];
      }
    }

    method SetHealth(url: Url, healthy: bool)
      requires Valid()
      modifies this
      ensures Valid() && Abs() == Record(old(Abs()), url, Health(healthy))
    {
      if url in servers {
        servers := servers[url := servers[url].(isHealthy := healthy)];
      }
    }

    method SetCircuitState(url: Url, state: string)
      requires Valid()
      modifies this
      ensures Valid() && Abs() == Record(old(Abs()), url, Circuit(state))
      ensures circuitEvents == LastN(log, 50)
    {
      if url !in servers {
        return;
      }
      var s := servers[url];
      var oldState := s.circuitState;
      servers := servers[url := s.(circuitState := state)];
      if oldState != state {
        var event := CircuitEvent(s.name, url, oldState, state);
        circuitEvents := circuitEvents + [event];
        if |circuitEvents| > MAX_EVENTS {
          circuitEvents := circuitEvents[|circuitEvents| - MAX_EVENTS..];
        }
        LastNAppend(log, MAX_EVENTS, event);
        log := log + [event];
      }
    }

    method RecordPriority(url: Url, priority: string)
      requires Valid()
      modifies this
      ensures Valid() && Abs() == Record(old(Abs()), url, Priority(priority == "HIGH"))
    {
      if url in servers {
        var s := servers[url];
        if priority == "HIGH" {
          servers := servers[url := s.(highPriorityCount := s.highPriorityCount + 1)];
        } else {
          servers := servers[url := s.(lowPriorityCount := s.lowPriorityCount + 1)];
        }
      }
    }

    method ClearLatencies(url: Url)
      requires Valid()
      modifies this
      ensures Valid() && Abs() == Record(old(Abs()), url, Clear)
    {
      if url in servers {
        servers := servers[url := servers[url].(recentLatencies := [], avgLatencyMs := 0.0, p95LatencyMs := 0.0)];
      }
    }

    method Snapshot() returns (snap: map<Url, ServerStats>)
      ensures snap == servers
    {
      snap := servers;
    }

    /** Whatever order the old snapshot is walked in, every server in both gets its old counters. */
    method ImportMetrics(oldSnap: map<Url, ServerStats>)
      requires Valid()
      modifies this
      ensures Valid() && log == old(log)
      ensures servers == map u | u in old(servers) ::
                           if u in oldSnap then Apply(old(servers)[u], Import(oldSnap[u])) else old(servers)[u]
    {
      var urls := oldSnap.Keys;
      ghost var start := servers;
      while urls != {}
        invariant urls <= oldSnap.Keys && servers.Keys == start.Keys
        invariant forall u :: u in start ==>
                    servers[u] == if u in oldSnap && u !in urls then Apply(start[u], Import(oldSnap[u])) else start[u]
        invariant circuitEvents == old(circuitEvents) && log == old(log)
        decreases urls
      {
        var u :| u in urls;
        if u in servers {
          servers := servers[u := Apply(servers[u], Import(oldSnap[u]))];
        }
        urls := urls - {u};
      }
    }

    /** The records and their totals. */
    method DashboardSnap() returns (snap: DashboardSnapshot)
      requires Valid()
      ensures snap == Summary(servers, LastN(log, MAX_EVENTS))
    {
      var total, ok, healthy := AddUp(servers);
      assert HealthyOnes(servers) * servers.Keys == HealthyOnes(servers);
      snap := DashboardSnapshot(servers, total, SuccessRate(ok, total), healthy, |servers|, circuitEvents);
    }
  }

  lemma LastNAppend<T>(xs: seq<T>, n: nat, x: T)
    requires 1 <= n
    ensures LastN(xs + [x], n)
         == var longer := LastN(xs, n) + [x]; if |longer| > n then longer[|longer| - n..] else longer
  {
  }
}
