/** The check that no backend appears twice in the configuration. */
module Config {
  type Url = string

  datatype ServerConfig = ServerConfig(url: Url, name: string, weight: int)

  /** The recovery timeout is in units of the clock. */
  datatype ServiceConfig = ServiceConfig(servers: seq<ServerConfig>, threshold: int, recoveryTimeout: int)

  function UrlSet(svc: ServiceConfig): set<Url> {
    set i | 0 <= i < |svc.servers| :: svc.servers[i].url
  }

  ghost predicate DistinctWithin(svc: ServiceConfig) {
    forall i, j :: 0 <= i < j < |svc.servers| ==> svc.servers[i].url != svc.servers[j].url
  }

  /** The backend URLs of all services are pairwise distinct, within a service and across services. */
  ghost predicate UrlsDistinct(services: map<string, ServiceConfig>) {
    && (forall n :: n in services ==> DistinctWithin(services[n]))
    && (forall n, m :: n in services && m in services && n != m ==> UrlSet(services[n]) !! UrlSet(services[m]))
  }

  /** The inner loop: one service against everything seen so far. */
  method CheckService(name: string, svc: ServiceConfig, seen: map<Url, string>)
    returns (ok: bool, seen': map<Url, string>)
    ensures ok <==> DistinctWithin(svc) && UrlSet(svc) !! seen.Keys
    ensures ok ==> seen'.Keys == seen.Keys + UrlSet(svc)
  {
    seen' := seen;
    var i := 0;
    while i < |svc.servers|
      invariant 0 <= i <= |svc.servers|
      invariant forall u :: u in seen' <==> u in seen || exists j :: 0 <= j < i && svc.servers[j].url == u
      invariant forall j :: 0 <= j < i ==> svc.servers[j].url !in seen
      invariant forall j, k :: 0 <= j < k < i ==> svc.servers[j].url != svc.servers[k].url
    {
      var url := svc.servers[i].url;
      if url in seen' {
        assert url in UrlSet(svc);
        return false, seen';
      }
      seen' := seen'[url := name];
      i := i + 1;
    }
    ok := true;
  }

  /** Accepts exactly the configurations whose backend URLs are pairwise distinct, in whatever order the
      services are visited. */
  method Validate(services: map<string, ServiceConfig>) returns (ok: bool)
    ensures ok <==> UrlsDistinct(services)
  {
    var seen: map<Url, string> := map[];
    var names := services.Keys;
    while names != {}
      invariant names <= services.Keys
      invariant forall n :: n in services && n !in names ==> UrlSet(services[n]) <= seen.Keys
      invariant forall u :: u in seen ==> exists n :: n in services && n !in names && u in UrlSet(services[n])
      invariant forall n :: n in services && n !in names ==> DistinctWithin(services[n])
      invariant forall n, m :: n in services && m in services && n !in names && m !in names && n != m ==>
                  UrlSet(services[n]) !! UrlSet(services[m])
      decreases names
    {
      var name :| name in names;
      ghost var before := seen;
      ok, seen := CheckService(name, services[name], seen);
      if !ok {
        if DistinctWithin(services[name]) {
          var u :| u in UrlSet(services[name]) && u in before;
          var n :| n in services && n !in names && u in UrlSet(services[n]);
          assert !(UrlSet(services[n]) !! UrlSet(services[name]));
        }
        return false;
      }
      names := names - {name};
    }
    return true;
  }
}
