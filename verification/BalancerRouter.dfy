/** Selecting a backend: filter with the pure check, let the algorithm choose, admit only the chosen one. */
module BalancerRouter {
  import opened Stats
  import opened Metrics
  import opened CircuitBreaker
  import Swrr
  import SwrrFairness
  import CanaryAlgorithm

  datatype Choice = Chosen(url: Url) | NoHealthyServers | NoServerReturned | CircuitIsOpen

  /** The servers that passed the filter, in the order of the list; `ok` holds the verdicts so far. */
  function Passing(servers: seq<Url>, ok: seq<bool>): seq<Url>
    requires |ok| <= |servers|
  {
    if ok == [] then [] else
      var n := |ok| - 1;
      Passing(servers, ok[..n]) + (if ok[n] then [servers[n]] else [])
  }

  lemma PassingExtend(servers: seq<Url>, ok: seq<bool>, passes: bool)
    requires |ok| < |servers|
    ensures Passing(servers, ok + [passes]) == Passing(servers, ok) + (if passes then [servers[|ok|]] else [])
  {
    assert (ok + [passes])[..|ok|] == ok;
  }

  lemma {:induction false} PassingMembers(servers: seq<Url>, ok: seq<bool>)
    requires |ok| <= |servers|
    ensures forall u :: u in Passing(servers, ok) <==> exists i :: 0 <= i < |ok| && servers[i] == u && ok[i]
  {
    if ok != [] {
      PassingMembers(servers, ok[..|ok| - 1]);
    }
  }

  /** A server list without repetitions gives candidates without repetitions. */
  lemma {:induction false} PassingDistinct(servers: seq<Url>, ok: seq<bool>)
    requires |ok| <= |servers| && Swrr.Distinct(servers)
    ensures Swrr.Distinct(Passing(servers, ok))
  {
    if ok != [] {
      var n := |ok| - 1;
      var front := Passing(servers, ok[..n]);
      PassingDistinct(servers, ok[..n]);
      PassingMembers(servers, ok[..n]);
      forall k | 0 <= k < |front|
        ensures front[k] != servers[n]
      {
        assert front[k] in front;
      }
    }
  }

  method SetFrom(list: seq<Url>) returns (s: set<Url>)
    ensures forall u :: u in s <==> u in list
  {
    s := {};
    var k := 0;
    while k < |list|
      invariant 0 <= k <= |list|
      invariant forall u :: u in s <==> u in list[..k]
    {
      assert list[..k + 1] == list[..k] + [list[k]];
      s := s + {list[k]};
      k := k + 1;
    }
    assert list[..k] == list;
  }

  ghost predicate Passed(servers: seq<Url>, ok: seq<bool>, u: Url)
    requires |ok| == |servers|
  {
    exists i :: 0 <= i < |servers| && servers[i] == u && ok[i]
  }

  lemma PassedServer(servers: seq<Url>, ok: seq<bool>, u: Url)
    requires |ok| == |servers| && u in Passing(servers, ok)
    ensures Passed(servers, ok, u)
  {
    PassingMembers(servers, ok);
  }

  lemma SomePasses(servers: seq<Url>, ok: seq<bool>)
    requires |ok| == |servers|
    ensures Passing(servers, ok) == [] <==> !exists i :: 0 <= i < |servers| && ok[i]
  {
    PassingMembers(servers, ok);
    if i :| 0 <= i < |servers| && ok[i] {
      assert servers[i] in Passing(servers, ok);
    }
    if Passing(servers, ok) != [] {
      assert Passing(servers, ok)[0] in Passing(servers, ok);
    }
  }

  /** The algorithm returns a server for every candidate list that some verdicts can produce. */
  ghost predicate Answers(pick: seq<Url> -> Url, servers: seq<Url>) {
    forall ok: seq<bool> {:trigger AnswersOn(pick, servers, ok)} ::
      |ok| == |servers| && Passing(servers, ok) != [] ==> AnswersOn(pick, servers, ok)
  }

  ghost predicate AnswersOn(pick: seq<Url> -> Url, servers: seq<Url>, ok: seq<bool>)
    requires |ok| == |servers|
  {
    pick(Passing(servers, ok)) != ""
  }

  class Router {
    const servers: seq<Url>
    const collector: Collector
    const breakers: map<Url, Breaker>

    constructor (servers: seq<Url>, collector: Collector, breakers: map<Url, Breaker>)
      ensures this.servers == servers && this.collector == collector && this.breakers == breakers
    {
      this.servers, this.collector, this.breakers := servers, collector, breakers;
    }

    /** Every configured server has a breaker. */
    ghost predicate Valid()
      reads breakers.Values
    {
      && (forall u :: u in servers ==> u in breakers)
      && (forall u :: u in breakers ==> breakers[u].Valid())
    }

    /** The i-th server is known, not excluded, healthy, and its circuit is not open at `now`. */
    ghost predicate Eligible(i: nat, excluded: seq<Url>, now: int)
      requires i < |servers| && servers[i] in breakers
      reads collector, breakers.Values
    {
      var u := servers[i];
      && u !in excluded
      && u in collector.servers
      && collector.servers[u].isHealthy
      && Admits(breakers[u].history, breakers[u].threshold, breakers[u].recoveryTimeout, now)
    }

    /** Clock readings, one per server for the filter and one for the admission, taken in this order. */
    ghost predicate ClockReadings(filterAt: seq<int>, admitAt: int)
      requires Valid()
      reads breakers.Values
    {
      && |filterAt| == |servers|
      && (forall i :: 0 <= i < |servers| ==>
            filterAt[i] <= admitAt && Clocked(breakers[servers[i]].history, filterAt[i]))
    }

    /** What the filter finds, server by server. */
    ghost predicate Verdicts(ok: seq<bool>, excluded: seq<Url>, filterAt: seq<int>)
      requires Valid() && |filterAt| == |servers|
      reads collector, breakers.Values
    {
      |ok| == |servers| && forall i :: 0 <= i < |servers| ==> (ok[i] <==> Eligible(i, excluded, filterAt[i]))
    }

    /** The filter for one server. */
    method Passes(i: nat, excluded: seq<Url>, excludedSet: set<Url>, stats: map<Url, ServerStats>, now: int)
      returns (ok: bool)
      requires Valid() && i < |servers| && Clocked(breakers[servers[i]].history, now)
      requires stats == collector.servers && forall u :: u in excludedSet <==> u in excluded
      ensures ok <==> Eligible(i, excluded, now)
      ensures var u := servers[i];
              ok <==>
                && u !in excluded && u in collector.servers && collector.servers[u].isHealthy
                && (FailuresSinceSuccess(breakers[u].history) < TripsAt(breakers[u].threshold)
                    || now - LatestFailure(breakers[u].history) > breakers[u].recoveryTimeout)
    {
      var url := servers[i];
      if url in excludedSet || url !in stats || !stats[url].isHealthy {
        return false;
      }
      var open := breakers[url].IsOpen(now);
      ok := !open;
    }

    /** `ok` says which servers are eligible; they are the candidates, in the order of the list. */
    method Filter(excluded: seq<Url>, filterAt: seq<int>, ghost admitAt: int)
      returns (candidates: seq<Url>, ghost ok: seq<bool>)
      requires Valid() && ClockReadings(filterAt, admitAt)
      ensures Verdicts(ok, excluded, filterAt) && candidates == Passing(servers, ok)
    {
      var stats := collector.Snapshot();
      var excludedSet := SetFrom(excluded);
      candidates, ok := [], [];
      var i := 0;
      while i < |servers|
        invariant 0 <= i <= |servers| && |ok| == i
        invariant forall j :: 0 <= j < i ==> (ok[j] <==> Eligible(j, excluded, filterAt[j]))
        invariant candidates == Passing(servers, ok)
      {
        var passes := Passes(i, excluded, excludedSet, stats, filterAt[i]);
        PassingExtend(servers, ok, passes);
        if passes {
          candidates := candidates + [servers[i]];
        }
        ok := ok + [passes];
        i := i + 1;
      }
    }

    /** Any algorithm may be used that returns one of its candidates or nothing. With one that answers on every
        candidate list the filter can produce, the selection succeeds exactly when some server is eligible; the
        chosen server was eligible; the error of an open circuit cannot occur; and no breaker but the chosen one
        is touched. */
    method Select(pick: seq<Url> -> Url, excluded: seq<Url>, filterAt: seq<int>, admitAt: int)
      returns (r: Choice, ghost ok: seq<bool>)
      requires Valid() && ClockReadings(filterAt, admitAt)
      requires forall c :: c != [] ==> pick(c) == "" || pick(c) in c
      modifies breakers.Values
      ensures Valid()
      ensures old(Verdicts(ok, excluded, filterAt))
      ensures var candidates := Passing(servers, ok);
              r == if candidates == [] then NoHealthyServers
                   else if pick(candidates) == "" then NoServerReturned
                   else Chosen(pick(candidates))
      ensures Answers(pick, servers) ==> (r.Chosen? <==> exists i :: 0 <= i < |servers| && ok[i])
      ensures r.Chosen? ==>
                && Passed(servers, ok, r.url)
                && r.url in breakers
                && breakers[r.url].Abs() == AfterAsk(old(breakers[r.url].Abs()), breakers[r.url].recoveryTimeout, admitAt)
                && breakers[r.url].history == old(breakers[r.url].history) + [Asked(admitAt, true)]
      ensures forall b :: b in breakers.Values && !(r.Chosen? && b == breakers[r.url]) ==> unchanged(b)
    {
      var candidates;
      candidates, ok := Filter(excluded, filterAt, admitAt);
      SomePasses(servers, ok);
      assert Answers(pick, servers) && candidates != [] ==> AnswersOn(pick, servers, ok);
      if |candidates| == 0 {
        return NoHealthyServers, ok;
      }
      var chosen := pick(candidates);
      if chosen == "" {
        return NoServerReturned, ok;
      }
      PassedServer(servers, ok, chosen);
      r := Send(chosen, ok, excluded, filterAt, admitAt);
    }

    /** The same with the canary algorithm, which changes state as it selects, after any run of selections: as
        long as the weights stay within the bound, a server is returned exactly when some server is eligible,
        neither error of the algorithm nor of the circuit can occur, and the run goes on by one call. */
    method SelectByCanary(canary: CanaryAlgorithm.Canary, ghost s: Swrr.State, ghost calls: seq<seq<Url>>,
                          ghost known: set<Url>, priority: string, excluded: seq<Url>, filterAt: seq<int>, admitAt: int)
      returns (r: Choice, ghost ok: seq<bool>)
      requires Valid() && ClockReadings(filterAt, admitAt) && canary.Valid()
      requires Swrr.Distinct(servers) && "" !in servers && Swrr.SetOf(servers) <= known
      requires HasRun(canary, collector.servers, s, calls) && WithinBound(s, calls, known)
      modifies canary, breakers.Values
      ensures Valid() && canary.Valid()
      ensures old(Verdicts(ok, excluded, filterAt))
      ensures r.Chosen? <==> exists i :: 0 <= i < |servers| && ok[i]
      ensures var candidates := Passing(servers, ok);
              if candidates == [] then
                r == NoHealthyServers && HasRun(canary, collector.servers, s, calls)
              else
                r == Chosen(Swrr.Pick(SwrrFairness.After(s, calls), candidates))
                && HasRun(canary, collector.servers, s, calls + [candidates])
                && WithinBound(s, calls + [candidates], known)
      ensures r.Chosen? ==>
                r.url in breakers
                && breakers[r.url].history == old(breakers[r.url].history) + [Asked(admitAt, true)]
      ensures forall b :: b in breakers.Values && !(r.Chosen? && b == breakers[r.url]) ==> unchanged(b)
    {
      var candidates;
      candidates, ok := Filter(excluded, filterAt, admitAt);
      SomePasses(servers, ok);
      if |candidates| == 0 {
        return NoHealthyServers, ok;
      }
      PassingProper(servers, ok, known);
      r := ConsultAndSend(canary, s, calls, known, candidates, priority, ok, excluded, filterAt, admitAt);
    }

    /** Asking the algorithm and admitting the server it returned. */
    method ConsultAndSend(canary: CanaryAlgorithm.Canary, ghost s: Swrr.State, ghost calls: seq<seq<Url>>,
                          ghost known: set<Url>, candidates: seq<Url>, priority: string,
                          ghost ok: seq<bool>, ghost excluded: seq<Url>, ghost filterAt: seq<int>, admitAt: int)
      returns (r: Choice)
      requires Valid() && ClockReadings(filterAt, admitAt) && Verdicts(ok, excluded, filterAt)
      requires canary.Valid() && HasRun(canary, collector.servers, s, calls)
      requires WithinBound(s, calls, known) && SwrrFairness.ProperCall(candidates, known)
      requires candidates == Passing(servers, ok)
      modifies canary, breakers.Values
      ensures Valid() && canary.Valid()
      ensures r == Chosen(Swrr.Pick(SwrrFairness.After(s, calls), candidates))
      ensures HasRun(canary, collector.servers, s, calls + [candidates])
      ensures WithinBound(s, calls + [candidates], known)
      ensures r.url in breakers
      ensures breakers[r.url].history == old(breakers[r.url].history) + [Asked(admitAt, true)]
      ensures forall b :: b in breakers.Values && b != breakers[r.url] ==> unchanged(b)
    {
      var chosen := Consult(canary, s, calls, known, candidates, priority, ok, excluded, filterAt, admitAt);
      if chosen == "" {
        r := NoServerReturned;
        assert false;
      }
      PassedServer(servers, ok, chosen);
      r := Send(chosen, ok, excluded, filterAt, admitAt);
    }

    /** Asking the canary algorithm touches nothing of the router. */
    method Consult(canary: CanaryAlgorithm.Canary, ghost s: Swrr.State, ghost calls: seq<seq<Url>>,
                   ghost known: set<Url>, candidates: seq<Url>, priority: string,
                   ghost ok: seq<bool>, ghost excluded: seq<Url>, ghost filterAt: seq<int>, ghost admitAt: int)
      returns (chosen: Url)
      requires Valid() && ClockReadings(filterAt, admitAt) && Verdicts(ok, excluded, filterAt)
      requires canary.Valid() && HasRun(canary, collector.servers, s, calls)
      requires WithinBound(s, calls, known) && SwrrFairness.ProperCall(candidates, known)
      modifies canary
      ensures Valid() && ClockReadings(filterAt, admitAt) && Verdicts(ok, excluded, filterAt)
      ensures canary.Valid() && HasRun(canary, collector.servers, s, calls + [candidates])
      ensures WithinBound(s, calls + [candidates], known)
      ensures chosen == Swrr.Pick(SwrrFairness.After(s, calls), candidates)
      ensures chosen in candidates && chosen != ""
    {
      var stats := collector.Snapshot();
      chosen := Choose(canary, s, calls, known, candidates, stats, priority);
    }

    /** The last step: a server that passed the filter is admitted. */
    method Send(chosen: Url, ghost ok: seq<bool>, ghost excluded: seq<Url>, ghost filterAt: seq<int>, admitAt: int)
      returns (r: Choice)
      requires Valid() && ClockReadings(filterAt, admitAt) && Verdicts(ok, excluded, filterAt)
      requires Passed(servers, ok, chosen)
      modifies breakers[chosen]
      ensures Valid() && r == Chosen(chosen)
      ensures breakers[chosen].Abs()
           == AfterAsk(old(breakers[chosen].Abs()), breakers[chosen].recoveryTimeout, admitAt)
      ensures breakers[chosen].history == old(breakers[chosen].history) + [Asked(admitAt, true)]
    {
      ghost var i :| 0 <= i < |servers| && servers[i] == chosen && ok[i];
      var sent := Admit(chosen, filterAt[i], admitAt);
      if !sent {
        r := CircuitIsOpen;
        assert false;
      }
      r := Chosen(chosen);
    }

    /** A breaker that passed the filter admits the request later on. */
    method Admit(chosen: Url, ghost filteredAt: int, admitAt: int) returns (sent: bool)
      requires Valid() && chosen in breakers && filteredAt <= admitAt
      requires var b := breakers[chosen];
               Clocked(b.history, filteredAt) && Admits(b.history, b.threshold, b.recoveryTimeout, filteredAt)
      modifies breakers[chosen]
      ensures Valid() && sent
      ensures breakers[chosen].Abs()
           == AfterAsk(old(breakers[chosen].Abs()), breakers[chosen].recoveryTimeout, admitAt)
      ensures breakers[chosen].history == old(breakers[chosen].history) + [Asked(admitAt, true)]
    {
      ghost var b := breakers[chosen];
      ClockedLater(b.history, filteredAt, admitAt);
      AdmitsLater(b.history, b.threshold, b.recoveryTimeout, filteredAt, admitAt);
      sent := breakers[chosen].CanSend(admitAt);
    }
  }

  // ------------------------------------------------------------------ the canary algorithm in the router

  /** The canary object has been through these calls since `s`; before its first call, `s` is what it will
      start from. */
  ghost predicate HasRun(canary: CanaryAlgorithm.Canary, stats: map<Url, ServerStats>, s: Swrr.State, calls: seq<seq<Url>>)
    reads canary
  {
    if canary.initialized then canary.Abs() == SwrrFairness.After(s, calls)
    else calls == [] && s == CanaryAlgorithm.Fresh(stats)
  }

  ghost predicate WithinBound(s: Swrr.State, calls: seq<seq<Url>>, known: set<Url>) {
    && SwrrFairness.Initial(s) && SwrrFairness.Proper(calls, known)
    && (|known| - 1) * SwrrFairness.TotalWeight(s, known) < -Swrr.SENTINEL
  }

  lemma PassingProper(servers: seq<Url>, ok: seq<bool>, known: set<Url>)
    requires |ok| == |servers| && Swrr.Distinct(servers) && "" !in servers && Swrr.SetOf(servers) <= known
    requires Passing(servers, ok) != []
    ensures SwrrFairness.ProperCall(Passing(servers, ok), known)
  {
    PassingDistinct(servers, ok);
    PassingMembers(servers, ok);
    forall u | u in Passing(servers, ok)
      ensures u in servers && u in known
    {
      assert u in Swrr.SetOf(servers);
    }
  }

  /** One more call of the run. */
  method Choose(canary: CanaryAlgorithm.Canary, ghost s: Swrr.State, ghost calls: seq<seq<Url>>, ghost known: set<Url>,
                candidates: seq<Url>, stats: map<Url, ServerStats>, priority: string)
    returns (chosen: Url)
    requires canary.Valid() && HasRun(canary, stats, s, calls)
    requires WithinBound(s, calls, known) && SwrrFairness.ProperCall(candidates, known)
    modifies canary
    ensures canary.Valid() && HasRun(canary, stats, s, calls + [candidates])
    ensures WithinBound(s, calls + [candidates], known)
    ensures chosen == Swrr.Pick(SwrrFairness.After(s, calls), candidates)
    ensures chosen in candidates && chosen != ""
  {
    assert (calls + [candidates])[..|calls|] == calls;
    CanaryReturnsACandidate(s, calls, known, candidates);
    chosen := canary.Select(candidates, stats, priority);
  }

  /** As a function of its candidates after any run, the canary algorithm answers on every list the filter can
      produce, so the selection above succeeds exactly when some server is eligible. */
  lemma CanaryAnswers(s: Swrr.State, calls: seq<seq<Url>>, known: set<Url>, servers: seq<Url>)
    requires WithinBound(s, calls, known)
    requires Swrr.Distinct(servers) && "" !in servers && Swrr.SetOf(servers) <= known
    ensures Answers(c => Swrr.Pick(SwrrFairness.After(s, calls), c), servers)
  {
    var pick := (c: seq<Url>) => Swrr.Pick(SwrrFairness.After(s, calls), c);
    forall ok: seq<bool> | |ok| == |servers| && Passing(servers, ok) != []
      ensures AnswersOn(pick, servers, ok)
    {
      PassingProper(servers, ok, known);
      CanaryReturnsACandidate(s, calls, known, Passing(servers, ok));
    }
  }

  /** The canary algorithm keeps its side of the contract: after any run of selections, with (n - 1) * W below
      2^30, it returns one of its candidates, so the router's error of no server returned cannot occur. */
  lemma CanaryReturnsACandidate(s: Swrr.State, calls: seq<seq<Url>>, known: set<Url>, candidates: seq<Url>)
    requires WithinBound(s, calls, known) && SwrrFairness.ProperCall(candidates, known)
    ensures Swrr.Pick(SwrrFairness.After(s, calls), candidates) in candidates
    ensures Swrr.Pick(SwrrFairness.After(s, calls), candidates) != ""
  {
    var all := calls + [candidates];
    assert all[..|calls|] == calls;
    SwrrFairness.SentinelSound(s, all, known);
    assert SwrrFairness.PickAt(s, all, |calls|) in all[|calls|];
  }
}
