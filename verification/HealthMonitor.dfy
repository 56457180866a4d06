/** The health monitor, and the wiring it shares with the other recorders: one collector and one breaker per
    server. */
module HealthMonitor {
  import opened Stats
  import opened Metrics
  import opened Publishing
  import CB = CircuitBreaker

  type Breakers = map<Url, CB.Breaker>

  /** All breakers are in `pool`, and no two servers share one. */
  ghost predicate Pooled(breakers: Breakers, pool: set<CB.Breaker>) {
    && (forall u :: u in breakers ==> breakers[u] in pool)
    && (forall u, v :: u in breakers && v in breakers && u != v ==> breakers[u] != breakers[v])
  }

  ghost predicate Limited(breakers: Breakers, u: Url, limits: Limits)
    requires u in breakers
    reads breakers[u]
  {
    breakers[u].Valid() && breakers[u].threshold == limits.threshold && breakers[u].recoveryTimeout == limits.timeout
  }

  /** A collector, and one breaker object per server, all with the same limits. */
  ghost predicate Wired(collector: Collector, breakers: Breakers, pool: set<CB.Breaker>, limits: Limits)
    reads collector, pool
  {
    && collector.Valid()
    && Pooled(breakers, pool)
    && forall u {:trigger Limited(breakers, u, limits)} :: u in breakers ==> Limited(breakers, u, limits)
  }

  /** What a collector and its breakers stand for. */
  ghost function ServiceOf(collector: Collector, breakers: Breakers, pool: set<CB.Breaker>): Service
    requires Pooled(breakers, pool)
    reads collector, pool
  {
    Service(collector.Abs(), map u | u in breakers :: breakers[u].history)
  }

  /** Records a result on one breaker and publishes its state. */
  method RecordOn(collector: Collector, b: CB.Breaker, url: Url, success: bool, now: int)
    requires collector.Valid() && b.Valid() && CB.Clocked(b.history, now)
    modifies collector, b
    ensures collector.Valid() && b.Valid() && CB.Clocked(b.history, now)
    ensures b.history == old(b.history) + [Event(success, now)]
    ensures collector.Abs() == Publish(old(collector.Abs()), old(b.Abs()), b.Abs(), url, success)
  {
    if success {
      var wasOpen := b.RecordSuccess();
      if wasOpen {
        collector.ClearLatencies(url);
      }
    } else {
      b.RecordFailure(now);
    }
    var state := b.StateString();
    collector.SetCircuitState(url, state);
  }

  /** The same among all breakers of a service: one step of it. */
  method RecordAndPublish(collector: Collector, breakers: Breakers, ghost pool: set<CB.Breaker>, ghost limits: Limits,
                          url: Url, success: bool, now: int)
    requires Wired(collector, breakers, pool, limits)
    requires url in breakers && CB.Clocked(breakers[url].history, now)
    modifies collector, breakers[url]
    ensures Wired(collector, breakers, pool, limits) && CB.Clocked(breakers[url].history, now)
    ensures ServiceOf(collector, breakers, pool)
         == Next(old(ServiceOf(collector, breakers, pool)), limits, Result(url, success, now))
  {
    ghost var s := ServiceOf(collector, breakers, pool);
    ghost var before, h := breakers[url].Abs(), breakers[url].history;
    assert Limited(breakers, url, limits);
    RecordOn(collector, breakers[url], url, success, now);
    forall u | u in breakers
      ensures Limited(breakers, u, limits)
    {
      assert u == url || old(Limited(breakers, u, limits));
    }
    ResultStep(s, limits, url, success, now, before, breakers[url].Abs());
    assert breakers[url].history == h + [Event(success, now)];
    assert (map u | u in breakers :: breakers[u].history) == s.histories[url := breakers[url].history];
  }

  lemma ResultStep(s: Service, limits: Limits, url: Url, success: bool, now: int, before: CB.Core, after: CB.Core)
    requires url in s.histories
    requires before == CoreOf(s.histories[url], limits) && after == CoreOf(s.histories[url] + [Event(success, now)], limits)
    ensures Next(s, limits, Result(url, success, now))
         == Service(Publish(s.book, before, after, url, success),
                    s.histories[url := s.histories[url] + [Event(success, now)]])
  {
  }

  /** What a health check asks for. */
  datatype HealthCheck = HealthCheck(url: Url, expectedStatus: int)

  datatype Answer = Unreachable | Status(code: int)

  predicate Healthy(check: HealthCheck, answer: Answer) {
    answer == Status(check.expectedStatus)
  }

  class Monitor {
    const collector: Collector
    const breakers: Breakers
    ghost const pool: set<CB.Breaker>
    ghost const limits: Limits

    constructor (collector: Collector, breakers: Breakers, ghost pool: set<CB.Breaker>, ghost limits: Limits)
      ensures this.collector == collector && this.breakers == breakers
      ensures this.pool == pool && this.limits == limits
    {
      this.collector, this.breakers, this.pool, this.limits := collector, breakers, pool, limits;
    }

    /** One health check: the server's health is set, and the result is recorded and published. */
    method Check(server: HealthCheck, answer: Answer, now: int)
      requires Wired(collector, breakers, pool, limits)
      requires server.url in breakers && CB.Clocked(breakers[server.url].history, now)
      modifies collector, breakers[server.url]
      ensures Wired(collector, breakers, pool, limits)
      ensures ServiceOf(collector, breakers, pool)
           == Checked(old(ServiceOf(collector, breakers, pool)), limits, server.url, Healthy(server, answer), now)
      ensures server.url in collector.servers ==>
                (collector.servers[server.url].isHealthy <==> answer.Status? && answer.code == server.expectedStatus)
    {
      if answer.Unreachable? {
        Report(server.url, false, now);
        return;
      }
      if answer.code != server.expectedStatus {
        Report(server.url, false, now);
        return;
      }
      Report(server.url, true, now);
    }

    method Report(url: Url, healthy: bool, now: int)
      requires Wired(collector, breakers, pool, limits)
      requires url in breakers && CB.Clocked(breakers[url].history, now)
      modifies collector, breakers[url]
      ensures Wired(collector, breakers, pool, limits)
      ensures ServiceOf(collector, breakers, pool)
           == Checked(old(ServiceOf(collector, breakers, pool)), limits, url, healthy, now)
      ensures url in collector.servers ==> collector.servers[url].isHealthy == healthy
    {
      ghost var s := ServiceOf(collector, breakers, pool);
      collector.SetHealth(url, healthy);
      assert ServiceOf(collector, breakers, pool) == s.(book := Record(s.book, url, Health(healthy)));
      RecordAndPublish(collector, breakers, pool, limits, url, healthy, now);
    }
  }

  /** A health check, seen by the service: a call and a result. */
  function Checked(s: Service, limits: Limits, url: Url, healthy: bool, now: int): Service {
    Next(s.(book := Record(s.book, url, Health(healthy))), limits, Result(url, healthy, now))
  }

  /** A run that goes on with a health check is a run that goes on with those two steps. */
  lemma CheckExtendsRun(s: Service, limits: Limits, steps: seq<Step>, url: Url, healthy: bool, now: int)
    ensures RunAll(s, limits, steps + [Call(url, Health(healthy))] + [Result(url, healthy, now)])
         == Checked(RunAll(s, limits, steps), limits, url, healthy, now)
  {
    var one := steps + [Call(url, Health(healthy))];
    assert one[..|steps|] == steps;
    assert (one + [Result(url, healthy, now)])[..|one|] == one;
  }

  /** A failed check takes a server out: it is shown unhealthy at once, and OPEN as soon as the failures since
      its last success reach the threshold; a passed check brings it back, healthy and CLOSED, and wipes its
      latencies if that ends an outage. Nothing else about it changes, nor anything about other servers. */
  lemma CheckOutcome(s: Service, limits: Limits, url: Url, healthy: bool, now: int)
    requires url in s.histories && url in s.book.servers
    requires CB.Answered(s.histories[url], limits.threshold, limits.timeout)
    ensures var r := Checked(s, limits, url, healthy, now);
            && url in r.book.servers && url in r.histories
            && r.book.servers[url].isHealthy == healthy
            && (r.book.servers[url].circuitState == "CLOSED"
                <==> CB.FailuresSinceSuccess(r.histories[url]) < CB.TripsAt(limits.threshold))
            && (r.book.servers[url].circuitState != "CLOSED" ==> r.book.servers[url].circuitState == "OPEN")
            && (healthy ==> r.book.servers[url].circuitState == "CLOSED")
            && (healthy && Tripped(s.histories[url], limits) ==> NoLatencies(r.book.servers[url]))
            && (!(healthy && Tripped(s.histories[url], limits)) ==>
                  SameLatencies(r.book.servers[url], s.book.servers[url]))
            && SameTraffic(r.book.servers[url], s.book.servers[url].(isHealthy := healthy))
            && forall u :: u in s.book.servers && u != url ==> r.book.servers[u] == s.book.servers[u]
  {
    var h, h' := s.histories[url], s.histories[url] + [Event(healthy, now)];
    AppendedCore(h, Event(healthy, now), limits);
    assert h'[..|h|] == h;
    CB.RefinesHistory(h', limits.threshold, limits.timeout);
    ResultEffect(s.(book := Record(s.book, url, Health(healthy))), limits, url, healthy, now);
    PublishShows(Record(s.book, url, Health(healthy)), CoreOf(h, limits), CoreOf(h', limits), url, healthy);
  }
}
