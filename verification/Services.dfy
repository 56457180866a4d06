/** The named services: each has its own collector, breakers and monitor; the manager finds the service of a
    backend and adds up the services for the dashboard. */
module Services {
  import opened Sums
  import opened Stats
  import opened Metrics
  import opened Publishing
  import opened HealthMonitor
  import CB = CircuitBreaker
  import Config

  // ------------------------------------------------------------------ one service

  class Instance {
    const name: string
    const collector: Collector
    const breakers: Breakers
    const monitor: Monitor
    ghost const pool: set<CB.Breaker>
    ghost const limits: Limits

    ghost predicate Valid()
      reads collector, pool
    {
      && Wired(collector, breakers, pool, limits)
      && breakers.Keys == collector.servers.Keys
      && monitor.collector == collector && monitor.breakers == breakers
      && monitor.pool == pool && monitor.limits == limits
    }

    ghost function Abs(): Service
      requires Pooled(breakers, pool)
      reads collector, pool
    {
      ServiceOf(collector, breakers, pool)
    }

    /** As built: one closed breaker and one fresh record for each backend, with the configured limits. */
    ghost predicate BuiltFrom(svc: Config.ServiceConfig)
      reads collector, pool
    {
      && Valid()
      && limits == Limits(svc.threshold, svc.recoveryTimeout)
      && breakers.Keys == Config.UrlSet(svc)
      && Configured(collector.servers, svc)
      && NewService(Abs())
    }

    constructor (name: string, svc: Config.ServiceConfig)
      ensures BuiltFrom(svc) && this.name == name
      ensures fresh(collector) && fresh(pool)
    {
      var c, bs, p := NewParts(svc);
      ghost var ls, built := Limits(svc.threshold, svc.recoveryTimeout), ServiceOf(c, bs, p);
      var m := new Monitor(c, bs, p, ls);
      assert NewService(built) && ServiceOf(c, bs, p) == built && Wired(c, bs, p, ls);
      this.name, collector, breakers, monitor, pool, limits := name, c, bs, m, p, ls;
      new;
      assert Abs() == built;
    }
  }

  /** The collector and the breakers of a new service. */
  method NewParts(svc: Config.ServiceConfig) returns (c: Collector, bs: Breakers, ghost pool: set<CB.Breaker>)
    ensures fresh(c) && fresh(pool)
    ensures Wired(c, bs, pool, Limits(svc.threshold, svc.recoveryTimeout))
    ensures bs.Keys == c.servers.Keys == Config.UrlSet(svc)
    ensures Configured(c.servers, svc)
    ensures NewService(ServiceOf(c, bs, pool))
  {
    var urls, names, weights := Columns(svc);
    c := new Collector(urls, names, weights);
    bs, pool := NewBreakers(urls, svc.threshold, svc.recoveryTimeout);
    NewBookIsFresh(urls, names, weights);
    NewRecordsConfigured(svc, urls, names, weights);
    ghost var s := ServiceOf(c, bs, pool);
    forall u | u in s.histories
      ensures NewServer(s, u)
    {
    }
  }

  /** Each backend has a fresh record with its configured name and a positive weight. */
  ghost predicate Configured(records: map<Url, ServerStats>, svc: Config.ServiceConfig) {
    forall i {:trigger ConfiguredAt(records, svc, i)} :: 0 <= i < |svc.servers| ==> ConfiguredAt(records, svc, i)
  }

  ghost predicate IsLast(svc: Config.ServiceConfig, i: nat)
    requires i < |svc.servers|
  {
    forall j :: i < j < |svc.servers| ==> svc.servers[j].url != svc.servers[i].url
  }

  /** The last entry for a URL is the one that counts. */
  ghost predicate ConfiguredAt(records: map<Url, ServerStats>, svc: Config.ServiceConfig, i: nat)
    requires i < |svc.servers|
  {
    var b := svc.servers[i];
    IsLast(svc, i) ==>
      b.url in records && records[b.url] == FreshStats(b.name, b.url, if b.weight > 0 then b.weight else 1)
  }

  lemma NewRecordsConfigured(svc: Config.ServiceConfig, urls: seq<Url>, names: seq<string>, weights: seq<int>)
    requires |urls| == |names| == |weights| == |svc.servers|
    requires forall i :: 0 <= i < |urls| ==> svc.servers[i] == Config.ServerConfig(urls[i], names[i], weights[i])
    ensures Configured(NewServers(urls, names, weights, |urls|), svc)
  {
    var records := NewServers(urls, names, weights, |urls|);
    forall i | 0 <= i < |svc.servers|
      ensures ConfiguredAt(records, svc, i)
    {
      NewRecordConfigured(svc, urls, names, weights, i);
    }
  }

  lemma NewRecordConfigured(svc: Config.ServiceConfig, urls: seq<Url>, names: seq<string>, weights: seq<int>, i: nat)
    requires |urls| == |names| == |weights| == |svc.servers|
    requires forall i :: 0 <= i < |urls| ==> svc.servers[i] == Config.ServerConfig(urls[i], names[i], weights[i])
    requires i < |urls|
    ensures ConfiguredAt(NewServers(urls, names, weights, |urls|), svc, i)
  {
    if IsLast(svc, i) {
      forall j | i < j < |urls|
        ensures urls[j] != urls[i]
      {
        assert svc.servers[j].url != svc.servers[i].url;
      }
      NewServerAt(urls, names, weights, |urls|, i);
    }
  }

  lemma NewBookIsFresh(urls: seq<Url>, names: seq<string>, weights: seq<int>)
    ensures var b := Book(NewServers(urls, names, weights, |urls|), []);
            FreshBook(b) && b.servers.Keys == (set u | u in urls)
  {
    NewServersAreFresh(urls, names, weights, |urls|);
    assert urls[..|urls|] == urls;
  }

  /** The backends of a service, column by column. */
  method Columns(svc: Config.ServiceConfig) returns (urls: seq<Url>, names: seq<string>, weights: seq<int>)
    ensures |urls| == |names| == |weights| == |svc.servers|
    ensures forall i :: 0 <= i < |urls| ==> svc.servers[i] == Config.ServerConfig(urls[i], names[i], weights[i])
    ensures (set u | u in urls) == Config.UrlSet(svc)
  {
    urls, names, weights := [], [], [];
    for i := 0 to |svc.servers|
      invariant |urls| == |names| == |weights| == i
      invariant forall j :: 0 <= j < i ==> svc.servers[j] == Config.ServerConfig(urls[j], names[j], weights[j])
    {
      urls := urls + [svc.servers[i].url];
      names := names + [svc.servers[i].name];
      weights := weights + [svc.servers[i].weight];
    }
    forall u
      ensures u in urls <==> u in Config.UrlSet(svc)
    {
      if u in urls {
        var i :| 0 <= i < |urls| && urls[i] == u;
        assert svc.servers[i].url == u;
      }
    }
  }

  /** A breaker of its own for each URL; a repeated URL keeps the last one. */
  method NewBreakers(urls: seq<Url>, threshold: int, timeout: int) returns (bs: Breakers, ghost pool: set<CB.Breaker>)
    ensures bs.Keys == (set u | u in urls)
    ensures Pooled(bs, pool) && fresh(pool)
    ensures forall u {:trigger Limited(bs, u, Limits(threshold, timeout))} :: u in bs ==>
              Limited(bs, u, Limits(threshold, timeout))
    ensures forall u :: u in bs ==> bs[u].history == []
  {
    bs, pool := map[], {};
    ghost var limits := Limits(threshold, timeout);
    var i := 0;
    while i < |urls|
      invariant 0 <= i <= |urls|
      invariant bs.Keys == (set u | u in urls[..i])
      invariant Pooled(bs, pool) && fresh(pool)
      invariant forall u {:trigger Limited(bs, u, limits)} :: u in bs ==> Limited(bs, u, limits)
      invariant forall u :: u in bs ==> bs[u].history == []
    {
      var b := new CB.Breaker(threshold, timeout);
      assert urls[..i + 1] == urls[..i] + [urls[i]];
      ghost var before := bs;
      bs, pool := bs[urls[i] := b], pool + {b};
      forall u | u in bs
        ensures Limited(bs, u, limits)
      {
        assert u == urls[i] || Limited(before, u, limits);
      }
      i := i + 1;
    }
    assert urls[..i] == urls;
  }

  // ------------------------------------------------------------------ sums over the services

  type Records = map<Url, ServerStats>

  /** The records of each service. */
  type Parts = map<string, Records>

  /** No backend belongs to two services. */
  ghost predicate Disjoint(parts: Parts) {
    forall n, m :: n in parts && m in parts && n != m ==> parts[n].Keys !! parts[m].Keys
  }

  ghost predicate From(parts: Parts, done: set<string>, u: Url, s: ServerStats)
    requires done <= parts.Keys
  {
    exists n :: n in done && u in parts[n] && parts[n][u] == s
  }

  /** `all` holds every backend of the services in `done`, each with a record from one of them. */
  ghost predicate Merged(all: Records, parts: Parts, done: set<string>)
    requires done <= parts.Keys
  {
    && (forall u {:trigger From(parts, done, u, all[u])} :: u in all ==> From(parts, done, u, all[u]))
    && (forall n, u :: n in done && u in parts[n] ==> u in all)
  }

  ghost function RequestTotal(r: Records): int {
    Sum(Requests(r), r.Keys)
  }

  ghost function SuccessTotal(r: Records): int {
    Sum(Successes(r), r.Keys)
  }

  ghost function HealthyTotal(r: Records): int {
    |HealthyOnes(r)|
  }

  ghost function Each(f: Records -> int, parts: Parts): map<string, int> {
    map n | n in parts :: f(parts[n])
  }

  /** Over disjoint records, `f` adds up. */
  ghost predicate Additive(f: Records -> int) {
    && f(map[]) == 0
    && forall a: Records, b: Records {:trigger f(a + b)} :: a.Keys !! b.Keys ==> f(a + b) == f(a) + f(b)
  }

  lemma RequestsAdd()
    ensures Additive(RequestTotal)
  {
    forall a: Records, b: Records | a.Keys !! b.Keys
      ensures RequestTotal(a + b) == RequestTotal(a) + RequestTotal(b)
    {
      assert (a + b).Keys == a.Keys + b.Keys;
      SumUnion(Requests(a + b), a.Keys, b.Keys);
      SumAgree(Requests(a + b), Requests(a), a.Keys);
      SumAgree(Requests(a + b), Requests(b), b.Keys);
    }
  }

  lemma SuccessesAdd()
    ensures Additive(SuccessTotal)
  {
    forall a: Records, b: Records | a.Keys !! b.Keys
      ensures SuccessTotal(a + b) == SuccessTotal(a) + SuccessTotal(b)
    {
      assert (a + b).Keys == a.Keys + b.Keys;
      SumUnion(Successes(a + b), a.Keys, b.Keys);
      SumAgree(Successes(a + b), Successes(a), a.Keys);
      SumAgree(Successes(a + b), Successes(b), b.Keys);
    }
  }

  lemma HealthyAdd()
    ensures Additive(HealthyTotal)
  {
    forall a: Records, b: Records | a.Keys !! b.Keys
      ensures HealthyTotal(a + b) == HealthyTotal(a) + HealthyTotal(b)
    {
      assert HealthyOnes(a + b) == HealthyOnes(a) + HealthyOnes(b);
      assert HealthyOnes(a) !! HealthyOnes(b);
    }
  }

  lemma CountsAdd()
    ensures Additive((r: Records) => |r|)
  {
    forall a: Records, b: Records | a.Keys !! b.Keys
      ensures |a + b| == |a| + |b|
    {
      assert (a + b).Keys == a.Keys + b.Keys;
      assert |(a + b).Keys| == |a.Keys| + |b.Keys|;
    }
  }

  /** In a merge of disjoint services, each backend has the record of its own service. */
  lemma OwnRecord(all: Records, parts: Parts, done: set<string>, n: string, u: Url)
    requires done <= parts.Keys && n in done && Disjoint(parts) && Merged(all, parts, done) && u in parts[n]
    ensures u in all && all[u] == parts[n][u]
  {
    assert u in all && From(parts, done, u, all[u]);
    var m :| m in done && u in parts[m] && parts[m][u] == all[u];
    if m != n {
      assert false;
    }
  }

  /** Taking one service out of a merge of disjoint services. */
  lemma WithoutOne(all: Records, parts: Parts, done: set<string>, n: string)
    requires done <= parts.Keys && n in done && Disjoint(parts) && Merged(all, parts, done)
    ensures Merged(all - parts[n].Keys, parts, done - {n})
  {
    var rest := all - parts[n].Keys;
    forall u | u in rest
      ensures From(parts, done - {n}, u, rest[u])
    {
      assert From(parts, done, u, all[u]);
      var m :| m in done && u in parts[m] && parts[m][u] == all[u];
      assert m in done - {n};
    }
  }

  lemma OneAndTheRest(all: Records, parts: Parts, done: set<string>, n: string)
    requires done <= parts.Keys && n in done && Disjoint(parts) && Merged(all, parts, done)
    ensures all == (all - parts[n].Keys) + parts[n]
  {
    forall u | u in parts[n]
      ensures u in all && all[u] == parts[n][u]
    {
      OwnRecord(all, parts, done, n, u);
    }
  }

  lemma NothingMerged(all: Records, parts: Parts)
    requires Merged(all, parts, {})
    ensures all == map[]
  {
    assert forall u :: u in all ==> From(parts, {}, u, all[u]);
    assert forall u :: u !in all;
  }

  /** When no backend belongs to two services, whatever adds up over disjoint records adds up over the
      services, however the merge came about. */
  lemma {:induction false} MergeAddsUp(f: Records -> int, all: Records, parts: Parts, done: set<string>)
    requires Additive(f)
    requires done <= parts.Keys && Disjoint(parts) && Merged(all, parts, done)
    ensures f(all) == Sum(Each(f, parts), done)
    decreases done
  {
    if done == {} {
      NothingMerged(all, parts);
    } else {
      var n :| n in done;
      var rest := all - parts[n].Keys;
      WithoutOne(all, parts, done, n);
      OneAndTheRest(all, parts, done, n);
      MergeAddsUp(f, rest, parts, done - {n});
      assert f(rest + parts[n]) == f(rest) + f(parts[n]);
      SumRemove(Each(f, parts), done, n);
    }
  }

  /** The totals over `all` are the sums over the services of their own totals. */
  ghost predicate AddedUp(all: Records, parts: Parts) {
    && RequestTotal(all) == Sum(Each(RequestTotal, parts), parts.Keys)
    && SuccessTotal(all) == Sum(Each(SuccessTotal, parts), parts.Keys)
    && HealthyTotal(all) == Sum(Each(HealthyTotal, parts), parts.Keys)
    && |all| == Sum(Counts(parts), parts.Keys)
  }

  lemma MergedTotals(all: Records, parts: Parts)
    requires Disjoint(parts) && Merged(all, parts, parts.Keys)
    ensures AddedUp(all, parts)
  {
    RequestsAdd();
    MergeAddsUp(RequestTotal, all, parts, parts.Keys);
    SuccessesAdd();
    MergeAddsUp(SuccessTotal, all, parts, parts.Keys);
    HealthyAdd();
    MergeAddsUp(HealthyTotal, all, parts, parts.Keys);
    CountsAdd();
    MergeAddsUp((r: Records) => |r|, all, parts, parts.Keys);
  }

  // ------------------------------------------------------------------ the count is exact only then

  ghost function KeysOf(parts: Parts, done: set<string>): set<Url>
    requires done <= parts.Keys
  {
    set n, u | n in done && u in parts[n] :: u
  }

  ghost function Counts(parts: Parts): map<string, int> {
    Each((r: Records) => |r|, parts)
  }

  lemma UnionSize(a: set<Url>, b: set<Url>)
    ensures |a + b| <= |a| + |b|
    ensures |a + b| == |a| + |b| ==> a !! b
  {
    assert a + b == a + (b - a);
    assert |b| == |b - a| + |b * a|;
    if a * b != {} {
      var u :| u in a * b;
      assert u in b * a;
    }
  }

  lemma KeysSplit(parts: Parts, done: set<string>, n: string)
    requires done <= parts.Keys && n in done
    ensures KeysOf(parts, done) == KeysOf(parts, done - {n}) + parts[n].Keys
  {
    forall u
      ensures u in KeysOf(parts, done) <==> u in KeysOf(parts, done - {n}) + parts[n].Keys
    {
      if u in KeysOf(parts, done) {
        var m :| m in done && u in parts[m];
        assert m == n || m in done - {n};
      }
      if u in KeysOf(parts, done - {n}) {
        var m :| m in done - {n} && u in parts[m];
        assert m in done;
      }
    }
  }

  lemma {:induction false} KeysAtMost(parts: Parts, done: set<string>)
    requires done <= parts.Keys
    ensures |KeysOf(parts, done)| <= Sum(Counts(parts), done)
    decreases done
  {
    if done == {} {
      assert KeysOf(parts, done) == {};
    } else {
      var n :| n in done;
      KeysAtMost(parts, done - {n});
      KeysSplit(parts, done, n);
      UnionSize(KeysOf(parts, done - {n}), parts[n].Keys);
      SumRemove(Counts(parts), done, n);
      assert |parts[n].Keys| == |parts[n]|;
    }
  }

  lemma MergedKeys(all: Records, parts: Parts)
    requires Merged(all, parts, parts.Keys)
    ensures all.Keys == KeysOf(parts, parts.Keys)
  {
    forall u | u in all
      ensures u in KeysOf(parts, parts.Keys)
    {
      assert From(parts, parts.Keys, u, all[u]);
    }
  }

  /** The merged records are as many as the services have together exactly when no backend belongs to two
      of them. */
  lemma CountsExactWhenDisjoint(all: Records, parts: Parts)
    requires Merged(all, parts, parts.Keys)
    ensures |all| == Sum(Counts(parts), parts.Keys) <==> Disjoint(parts)
  {
    if Disjoint(parts) {
      MergedTotals(all, parts);
    }
    MergedKeys(all, parts);
    assert |all| == |all.Keys|;
    forall n, m | n in parts && m in parts && n != m && |all| == Sum(Counts(parts), parts.Keys)
      ensures parts[n].Keys !! parts[m].Keys
    {
      var others := parts.Keys - {n};
      KeysSplit(parts, parts.Keys, n);
      KeysAtMost(parts, others);
      UnionSize(KeysOf(parts, others), parts[n].Keys);
      SumRemove(Counts(parts), parts.Keys, n);
      assert |parts[n].Keys| == |parts[n]|;
      KeysSplit(parts, others, m);
    }
  }

  // ------------------------------------------------------------------ all services

  type Log = seq<CircuitEvent>

  /** `events` is what the services in `done` retain, one service after the other in some order. */
  ghost predicate OneAfterOther(events: Log, logs: map<string, Log>, done: set<string>)
    decreases done
  {
    if done == {} then events == [] else
      exists n, k | n in done && 0 <= k <= |events| :: EndsWith(events, k, logs, done, n)
  }

  /** From `k` on, `events` is what the service `n` retains; before, it is the same about the others. */
  ghost predicate EndsWith(events: Log, k: nat, logs: map<string, Log>, done: set<string>, n: string)
    requires n in done && k <= |events|
    decreases done, 0
  {
    n in logs && events[k..] == LastN(logs[n], MAX_EVENTS) && OneAfterOther(events[..k], logs, done - {n})
  }

  lemma OneMoreLog(events: Log, logs: map<string, Log>, done: set<string>, n: string)
    requires OneAfterOther(events, logs, done) && n in logs && n !in done
    ensures OneAfterOther(events + LastN(logs[n], MAX_EVENTS), logs, done + {n})
  {
    var longer := events + LastN(logs[n], MAX_EVENTS);
    assert longer[..|events|] == events && done + {n} - {n} == done;
    assert EndsWith(longer, |events|, logs, done + {n}, n);
  }

  type Instances = map<string, Instance>

  /** The objects a service may change are among the given ones. */
  ghost predicate Within(inst: Instance, collectors: set<Collector>, pool: set<CB.Breaker>) {
    inst.collector in collectors && inst.pool <= pool
  }

  /** Two services share no object. */
  ghost predicate Apart(a: Instance, b: Instance) {
    a.collector != b.collector && a.pool !! b.pool
  }

  ghost predicate AllApart(built: Instances) {
    forall n, m {:trigger Apart(built[n], built[m])} :: n in built && m in built && n != m ==> Apart(built[n], built[m])
  }

  ghost predicate BuiltAt(built: Instances, collectors: set<Collector>, pool: set<CB.Breaker>,
                          services: map<string, Config.ServiceConfig>, n: string)
    requires n in built && n in services
    reads collectors, pool
  {
    Within(built[n], collectors, pool) && built[n].BuiltFrom(services[n])
  }

  /** Every service as configured. */
  ghost predicate AllBuilt(built: Instances, collectors: set<Collector>, pool: set<CB.Breaker>,
                           services: map<string, Config.ServiceConfig>)
    reads collectors, pool
  {
    && built.Keys <= services.Keys
    && forall n {:trigger BuiltAt(built, collectors, pool, services, n)} :: n in built ==>
         BuiltAt(built, collectors, pool, services, n)
  }

  method BuildAll(services: map<string, Config.ServiceConfig>)
    returns (built: Instances, ghost collectors: set<Collector>, ghost pool: set<CB.Breaker>)
    ensures built.Keys == services.Keys
    ensures AllBuilt(built, collectors, pool, services) && AllApart(built)
    ensures fresh(collectors) && fresh(pool)
  {
    built, collectors, pool := map[], {}, {};
    var names := services.Keys;
    while names != {}
      invariant names <= services.Keys && built.Keys == services.Keys - names
      invariant AllBuilt(built, collectors, pool, services) && AllApart(built)
      invariant fresh(collectors) && fresh(pool)
      decreases names
    {
      var name :| name in names;
      var inst := BuildOne(name, services, built, collectors, pool);
      built, collectors, pool := built[name := inst], collectors + {inst.collector}, pool + inst.pool;
      names := names - {name};
    }
  }

  /** One more service, apart from those already built. */
  method BuildOne(name: string, services: map<string, Config.ServiceConfig>,
                  ghost built: Instances, ghost collectors: set<Collector>, ghost pool: set<CB.Breaker>)
    returns (inst: Instance)
    requires name in services && name !in built
    requires AllBuilt(built, collectors, pool, services) && AllApart(built)
    ensures AllBuilt(built[name := inst], collectors + {inst.collector}, pool + inst.pool, services)
    ensures AllApart(built[name := inst])
    ensures fresh(inst.collector) && fresh(inst.pool)
  {
    inst := new Instance(name, services[name]);
    AddBuilt(built, collectors, pool, services, name, inst);
  }

  lemma AddBuilt(built: Instances, collectors: set<Collector>, pool: set<CB.Breaker>,
                 services: map<string, Config.ServiceConfig>, name: string, inst: Instance)
    requires AllBuilt(built, collectors, pool, services) && AllApart(built)
    requires name !in built && name in services && inst.BuiltFrom(services[name])
    requires inst.collector !in collectors && inst.pool !! pool
    ensures AllBuilt(built[name := inst], collectors + {inst.collector}, pool + inst.pool, services)
    ensures AllApart(built[name := inst])
  {
    var after, cs, bs := built[name := inst], collectors + {inst.collector}, pool + inst.pool;
    forall n | n in after
      ensures BuiltAt(after, cs, bs, services, n)
    {
      assert n == name || BuiltAt(built, collectors, pool, services, n);
    }
    forall n, m | n in after && m in after && n != m
      ensures Apart(after[n], after[m])
    {
      assert n == name || BuiltAt(built, collectors, pool, services, n);
      assert m == name || BuiltAt(built, collectors, pool, services, m);
      assert n == name || m == name || Apart(built[n], built[m]);
    }
  }

  /** No backend belongs to two services. */
  ghost predicate AllIsolated(built: Instances) {
    forall n, m :: n in built && m in built && n != m ==> built[n].breakers.Keys !! built[m].breakers.Keys
  }

  class Manager {
    const instances: Instances
    ghost const collectors: set<Collector>
    ghost const pool: set<CB.Breaker>

    ghost predicate ValidAt(n: string)
      requires n in instances
      reads collectors, pool
    {
      Within(instances[n], collectors, pool) && instances[n].Valid()
    }

    ghost predicate Held() {
      forall n :: n in instances ==> instances[n].collector in collectors
    }

    ghost predicate Valid()
      reads collectors, pool
    {
      Held() && AllApart(instances) && forall n {:trigger ValidAt(n)} :: n in instances ==> ValidAt(n)
    }

    constructor (services: map<string, Config.ServiceConfig>)
      ensures Valid() && fresh(collectors) && fresh(pool)
      ensures instances.Keys == services.Keys && AllBuilt(instances, collectors, pool, services)
      ensures Config.UrlsDistinct(services) ==> AllIsolated(instances)
    {
      var built, cs, p := BuildAll(services);
      instances, collectors, pool := built, cs, p;
      new;
      forall n | n in instances
        ensures ValidAt(n) && instances[n].breakers.Keys == Config.UrlSet(services[n])
      {
        assert BuiltAt(instances, collectors, pool, services, n);
      }
    }

    ghost predicate Ready(n: string, url: Url, now: int)
      requires n in instances && ValidAt(n)
      reads collectors, pool
    {
      url in instances[n].breakers ==> CB.Clocked(instances[n].breakers[url].history, now)
    }

    /** Records a result at the service that has the backend, if one has, whatever order the services are
        visited in: one step of that service, and nothing at any other. With isolated services there is no
        choice which one it is. */
    method RecordCircuitBreakerResult(url: Url, success: bool, now: int) returns (ghost owner: seq<string>)
      requires Valid()
      requires forall n {:trigger Ready(n, url, now)} :: n in instances && ValidAt(n) ==> Ready(n, url, now)
      modifies collectors, pool
      ensures Valid() && |owner| <= 1
      ensures forall n :: n in owner ==> n in instances && url in instances[n].breakers
      ensures forall n :: n in owner ==> old(ValidAt(n)) && ValidAt(n) && Recorded(n, url, success, now)
      ensures forall n {:trigger Kept(n)} :: n in instances && n !in owner ==> old(ValidAt(n)) && ValidAt(n) && Kept(n)
      ensures owner == [] ==> forall n :: n in instances ==> url !in instances[n].breakers
      ensures AllIsolated(instances) ==> forall n :: n in instances && url in instances[n].breakers ==> owner == [n]
    {
      owner := [];
      var names := instances.Keys;
      while names != {}
        invariant names <= instances.Keys
        invariant forall n :: n in instances && n !in names ==> url !in instances[n].breakers
        invariant unchanged(collectors) && unchanged(pool)
        decreases names
      {
        var n :| n in names;
        if url in instances[n].breakers {
          assert ValidAt(n) && Ready(n, url, now);
          RecordAt(n, url, success, now);
          return [n];
        }
        names := names - {n};
      }
    }

    /** Nothing happened at this service. */
    twostate predicate Kept(n: string)
      requires n in instances && old(ValidAt(n)) && ValidAt(n)
      reads collectors, pool
    {
      instances[n].Abs() == old(instances[n].Abs())
    }

    twostate predicate Recorded(n: string, url: Url, success: bool, now: int)
      requires n in instances && old(ValidAt(n)) && ValidAt(n)
      reads collectors, pool
    {
      instances[n].Abs() == Next(old(instances[n].Abs()), instances[n].limits, Result(url, success, now))
    }

    method RecordAt(n: string, url: Url, success: bool, now: int)
      requires Valid() && n in instances && ValidAt(n) && url in instances[n].breakers && Ready(n, url, now)
      modifies collectors, pool
      ensures Valid()
      ensures old(ValidAt(n)) && ValidAt(n) && Recorded(n, url, success, now)
      ensures forall m {:trigger Kept(m)} :: m in instances && m != n ==> old(ValidAt(m)) && ValidAt(m) && Kept(m)
    {
      var inst := instances[n];
      RecordAndPublish(inst.collector, inst.breakers, inst.pool, inst.limits, url, success, now);
      forall m | m in instances && m != n
        ensures old(ValidAt(m)) && ValidAt(m) && Kept(m)
      {
        assert old(ValidAt(m)) && Apart(instances[n], instances[m]);
      }
    }

    /** The records of each service. */
    ghost function Parts(): Parts
      requires Held()
      reads collectors
    {
      map n | n in instances :: instances[n].collector.servers
    }

    /** All circuit events of each service. */
    ghost function Logs(): map<string, Log>
      requires Held()
      reads collectors
    {
      map n | n in instances :: instances[n].collector.log
    }

    /** The records of all services and their totals; of the events, the last 50 of what the services retain.
        With isolated services the totals are the sums over the services, whatever order they are visited in. */
    method DashboardSnap() returns (snap: DashboardSnapshot, ghost events: Log)
      requires Valid()
      ensures Merged(snap.servers, Parts(), instances.Keys)
      ensures OneAfterOther(events, Logs(), instances.Keys)
      ensures snap == Summary(snap.servers, LastN(events, MAX_EVENTS))
      ensures AllIsolated(instances) ==> AddedUp(snap.servers, Parts())
      ensures snap.totalCount == Sum(Counts(Parts()), instances.Keys) <==> AllIsolated(instances)
    {
      forall n | n in instances
        ensures CollectorValid(n)
      {
        assert ValidAt(n);
      }
      var all, retained := Collect();
      events := retained;
      snap := Summarize(all, retained);
      IsolatedTotals(all);
    }

    lemma IsolatedTotals(all: Records)
      requires Valid() && Merged(all, Parts(), instances.Keys)
      ensures AllIsolated(instances) ==> AddedUp(all, Parts())
      ensures |all| == Sum(Counts(Parts()), instances.Keys) <==> AllIsolated(instances)
    {
      assert Parts().Keys == instances.Keys;
      forall n | n in instances
        ensures Parts()[n].Keys == instances[n].breakers.Keys
      {
        assert ValidAt(n);
      }
      CountsExactWhenDisjoint(all, Parts());
      if AllIsolated(instances) {
        MergedTotals(all, Parts());
      }
    }

    ghost predicate CollectorValid(n: string)
      requires n in instances && Held()
      reads collectors
    {
      instances[n].collector.Valid()
    }

    method Collect() returns (all: Records, events: Log)
      requires Held() && forall n :: n in instances ==> CollectorValid(n)
      ensures Collected(all, events, Parts(), Logs(), instances.Keys)
    {
      all, events := map[], [];
      var names := instances.Keys;
      ghost var done, parts, logs := {}, Parts(), Logs();
      while names != {}
        invariant done !! names && done + names == instances.Keys
        invariant Collected(all, events, parts, logs, done)
        decreases names
      {
        var n :| n in names;
        assert CollectorValid(n);
        var records, retained := Visit(instances[n].collector);
        CollectOne(all, events, parts, logs, done, n, records, retained);
        all, events := all + records, events + retained;
        names, done := names - {n}, done + {n};
      }
      assert done == instances.Keys;
    }
  }

  /** The state of the loop over the services. */
  ghost predicate Collected(all: Records, events: Log,
                            parts: Parts, logs: map<string, Log>, done: set<string>)
  {
    done <= parts.Keys && Merged(all, parts, done) && OneAfterOther(events, logs, done)
  }

  lemma CollectOne(all: Records, events: Log,
                   parts: Parts, logs: map<string, Log>, done: set<string>,
                   n: string, records: Records, retained: Log)
    requires Collected(all, events, parts, logs, done)
    requires n in parts && n in logs && n !in done
    requires records == parts[n] && retained == LastN(logs[n], MAX_EVENTS)
    ensures Collected(all + records, events + retained, parts, logs, done + {n})
  {
    MergeOne(all, parts, done, n);
    OneMoreLog(events, logs, done, n);
  }

  method Visit(c: Collector) returns (records: Records, retained: Log)
    requires c.Valid()
    ensures records == c.servers && retained == LastN(c.log, MAX_EVENTS)
  {
    var snap := c.DashboardSnap();
    records, retained := snap.servers, snap.circuitEvents;
  }

  /** Totals, and the last 50 events. */
  method Summarize(all: map<Url, ServerStats>, events: Log) returns (snap: DashboardSnapshot)
    ensures snap == Summary(all, LastN(events, MAX_EVENTS))
  {
    var last := events;
    if |last| > MAX_EVENTS {
      last := last[|last| - MAX_EVENTS..];
    }
    var total, ok, healthy := AddUp(all);
    assert HealthyOnes(all) * all.Keys == HealthyOnes(all);
    snap := DashboardSnapshot(all, total, SuccessRate(ok, total), healthy, |all|, last);
  }

  lemma MergeOne(all: Records, parts: Parts, done: set<string>, n: string)
    requires done <= parts.Keys && n in parts && Merged(all, parts, done)
    ensures Merged(all + parts[n], parts, done + {n})
  {
    var after, done' := all + parts[n], done + {n};
    forall u | u in after
      ensures From(parts, done', u, after[u])
    {
      if u in parts[n] {
        assert n in done';
      } else {
        assert From(parts, done, u, all[u]);
        var m :| m in done && u in parts[m] && parts[m][u] == all[u];
        assert m in done';
      }
    }
  }
}
