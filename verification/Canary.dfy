/** The canary algorithm as the balancer runs it: two maps updated in place under one mutex. */
module CanaryAlgorithm {
  import opened Sums
  import opened Swrr
  import Stats
  import Runs = SwrrFairness
  import SwrrSchedule

  class Canary {
    var serverWeights: map<Url, int>
    var currentWeights: map<Url, int>
    var initialized: bool

    constructor ()
      ensures Valid() && !initialized
    {
      serverWeights, currentWeights, initialized := map[], map[], false;
    }

    ghost predicate Valid()
      reads this
    {
      initialized ==> Sound(Abs())
    }

    function Abs(): State
      reads this
    {
      State(serverWeights, currentWeights)
    }

    /** The first call fixes a positive weight and a zero credit for every server of the snapshot;
        later calls change nothing. */
    method InitWeights(stats: map<Url, Stats.ServerStats>)
      requires Valid()
      modifies this
      ensures Valid() && initialized
      ensures old(initialized) ==> Abs() == old(Abs())
      ensures !old(initialized) ==> Abs() == Fresh(stats) && TakenFrom(Abs(), stats)
    {
      if initialized {
        return;
      }
      serverWeights, currentWeights := map[], map[];
      var urls := stats.Keys;
      while urls != {}
        invariant urls <= stats.Keys
        invariant serverWeights == map u | u in stats.Keys - urls :: PositiveWeight(stats[u].weight)
        invariant currentWeights == map u | u in stats.Keys - urls :: 0
        invariant !initialized
        decreases urls
      {
        var url :| url in urls;
        var w := stats[url].weight;
        if w <= 0 {
          w := 1;
        }
        serverWeights := serverWeights[url := w];
        currentWeights := currentWeights[url := 0];
        urls := urls - {url};
      }
      initialized := true;
      FreshIsTaken(stats);
    }

    /** The chosen server and the new credits are those of `Pick` and `Step`. */
    method Select(candidates: seq<Url>, stats: map<Url, Stats.ServerStats>, priority: string) returns (r: Url)
      requires Valid()
      modifies this
      ensures Valid()
      ensures candidates == [] ==> r == "" && Abs() == old(Abs()) && initialized == old(initialized)
      ensures candidates != [] ==>
                var s := if old(initialized) then old(Abs()) else Fresh(stats);
                initialized && r == Pick(s, candidates) && Abs() == Step(s, candidates)
      ensures candidates != [] && !old(initialized) ==> Weighted(serverWeights, stats)
      ensures candidates != [] && old(initialized) ==>
                forall u :: u in serverWeights ==>
                  serverWeights[u] == if u in old(serverWeights) then old(serverWeights)[u] else 1
    {
      if |candidates| == 0 {
        return "";
      }
      if !initialized {
        InitWeights(stats);
      }
      ghost var s := Abs();
      var totalWeight := Enroll(candidates);
      if totalWeight == 0 {
        TotalPositive(s, candidates, |candidates|);
        assert false;
      }
      r := Settle(candidates, totalWeight, s);
      StepSound(s, candidates);
      StepWeights(s, candidates);
    }

    /** The first half of a selection: unknown candidates get weight 1 and credit 0, and the weights are
        added up. */
    method Enroll(candidates: seq<Url>) returns (totalWeight: int)
      requires Sound(Abs())
      modifies this`serverWeights, this`currentWeights
      ensures totalWeight == Total(old(Abs()), candidates)
      ensures serverWeights == Register(old(Abs()), candidates)
      ensures currentWeights == ToppedUp(old(Abs()), candidates, 0)
    {
      ghost var s := Abs();
      totalWeight := 0;
      var i := 0;
      while i < |candidates|
        invariant 0 <= i <= |candidates|
        invariant totalWeight == TotalUpTo(s, candidates, i)
        invariant serverWeights == Register(s, candidates[..i])
        invariant currentWeights == ToppedUp(s, candidates[..i], 0)
      {
        var url := candidates[i];
        RegisterOneMore(s, candidates, i);
        if url !in serverWeights {
          serverWeights := serverWeights[url := LATE_WEIGHT];
          currentWeights := currentWeights[url := 0];
        }
        totalWeight := totalWeight + serverWeights[url];
        i := i + 1;
      }
      assert candidates[..i] == candidates;
    }

    /** The second half of a selection: top up, find the largest credit, charge it. */
    method Settle(candidates: seq<Url>, totalWeight: int, ghost s: State) returns (best: Url)
      requires candidates != [] && totalWeight == Total(s, candidates)
      requires serverWeights == Register(s, candidates) && currentWeights == ToppedUp(s, candidates, 0)
      modifies this`currentWeights
      ensures best == Pick(s, candidates) && Abs() == Step(s, candidates)
    {
      best := "";
      var bestCW := SENTINEL;
      ghost var k := -1;
      var i := 0;
      while i < |candidates|
        invariant 0 <= i <= |candidates|
        invariant k == Best(s, candidates, i)
        invariant best == (if k == -1 then "" else candidates[k])
        invariant bestCW == (if k == -1 then SENTINEL else Running(s, candidates, k))
        invariant currentWeights == ToppedUp(s, candidates, i)
      {
        var url := candidates[i];
        TopUpOneMore(s, candidates, i);
        var ew := serverWeights[url];
        currentWeights := currentWeights[url := currentWeights[url] + ew];
        if currentWeights[url] > bestCW {
          bestCW := currentWeights[url];
          best := url;
          k := i;
        }
        i := i + 1;
      }
      if best != "" {
        currentWeights := currentWeights[best := currentWeights[best] - totalWeight];
      }
    }
  }

  function PositiveWeight(w: int): int {
    if w <= 0 then 1 else w
  }

  /** The state right after initialisation from a snapshot. */
  function Fresh(stats: map<Url, Stats.ServerStats>): (s: State)
    ensures Sound(s)
    ensures forall u :: At(s.credit, u) == 0
  {
    State(map u | u in stats :: PositiveWeight(stats[u].weight), map u | u in stats :: 0)
  }

  /** Every server of the snapshot has the very weight it has there if that is positive, and 1 otherwise; any
      other server has weight 1. */
  ghost predicate Weighted(weights: map<Url, int>, stats: map<Url, Stats.ServerStats>) {
    && (forall u :: u in stats ==> u in weights)
    && (forall u :: u in stats && stats[u].weight >= 1 ==> u in weights && weights[u] == stats[u].weight)
    && (forall u :: u in stats && stats[u].weight < 1 ==> u in weights && weights[u] == 1)
    && (forall u :: u in weights && u !in stats ==> weights[u] == 1)
  }

  /** The state taken from a snapshot: its servers with those weights, and no credit. */
  ghost predicate TakenFrom(s: State, stats: map<Url, Stats.ServerStats>) {
    && Weighted(s.weight, stats)
    && s.weight.Keys == stats.Keys && s.credit.Keys == stats.Keys
    && forall u :: u in s.credit ==> s.credit[u] == 0
  }

  lemma FreshIsTaken(stats: map<Url, Stats.ServerStats>)
    ensures TakenFrom(Fresh(stats), stats)
  {
  }

  /** A selection keeps the stored weights; a server met for the first time has weight 1. */
  lemma StepWeights(s: State, candidates: seq<Url>)
    requires Sound(s)
    ensures forall u :: u in Step(s, candidates).weight ==>
              Step(s, candidates).weight[u] == if u in s.weight then s.weight[u] else 1
    ensures s.weight.Keys <= Step(s, candidates).weight.Keys
  {
  }

  /** The configured weights of the listed servers. */
  function Configured(stats: map<Url, Stats.ServerStats>, list: seq<Url>): map<Url, int> {
    map u | u in SetOf(list) && u in stats :: stats[u].weight
  }

  /** From a snapshot with positive weights, any W consecutive calls with the same list return each server exactly
      as often as the weight it is configured with, W being the sum of these weights. */
  lemma ConfiguredShares(s: State, stats: map<Url, Stats.ServerStats>, list: seq<Url>, n: nat, from: nat, u: Url)
    requires TakenFrom(s, stats)
    requires Runs.ProperCall(list, SetOf(list)) && u in list
    requires forall v :: v in list ==> v in stats && stats[v].weight >= 1
    requires n == Sum(Configured(stats, list), SetOf(list))
    ensures SwrrSchedule.Returned(s, SwrrSchedule.Repeat(list, from + n), from, from + n, u) == stats[u].weight
  {
    assert forall v :: v in s.weight ==> v in stats && 1 <= s.weight[v];
    TotalIsSum(s, list, |list|, Configured(stats, list));
    assert list[..|list|] == list;
    SwrrSchedule.FixedCallsExact(s, list, n, from, u);
  }
}
