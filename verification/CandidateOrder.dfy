/** The candidates of the balancer keep the order of the server list, which decides ties. */
module CandidateOrder {
  import opened Metrics
  import opened BalancerRouter

  /** How many of the first verdicts are positive. */
  function Rank(ok: seq<bool>, i: nat): nat
    requires i <= |ok|
  {
    if i == 0 then 0 else Rank(ok, i - 1) + (if ok[i - 1] then 1 else 0)
  }

  lemma {:induction false} RanksGrow(ok: seq<bool>, i: nat, j: nat)
    requires i <= j <= |ok|
    ensures Rank(ok, i) <= Rank(ok, j)
    ensures i < j && ok[i] ==> Rank(ok, i) < Rank(ok, j)
  {
    if i < j {
      RanksGrow(ok, i, j - 1);
    }
  }

  lemma {:induction false} RankOfPrefix(ok: seq<bool>, n: nat, i: nat)
    requires i <= n <= |ok|
    ensures Rank(ok[..n], i) == Rank(ok, i)
  {
    if i != 0 {
      RankOfPrefix(ok, n, i - 1);
    }
  }

  /** Each server that passes stands at the position that counts those before it. */
  lemma {:induction false} PassingAt(servers: seq<Url>, ok: seq<bool>, i: nat)
    requires |ok| <= |servers| && i < |ok| && ok[i]
    ensures |Passing(servers, ok)| == Rank(ok, |ok|)
    ensures Rank(ok, i) < |Passing(servers, ok)| && Passing(servers, ok)[Rank(ok, i)] == servers[i]
  {
    var n := |ok| - 1;
    PassingCount(servers, ok);
    PassingCount(servers, ok[..n]);
    RankOfPrefix(ok, n, i);
    RankOfPrefix(ok, n, n);
    RanksGrow(ok, i, |ok|);
    if i < n {
      PassingAt(servers, ok[..n], i);
    }
  }

  lemma {:induction false} PassingCount(servers: seq<Url>, ok: seq<bool>)
    requires |ok| <= |servers|
    ensures |Passing(servers, ok)| == Rank(ok, |ok|)
  {
    if ok != [] {
      var n := |ok| - 1;
      PassingCount(servers, ok[..n]);
      RankOfPrefix(ok, n, n);
    }
  }

  /** The candidates keep the order of the server list. */
  lemma PassingInOrder(servers: seq<Url>, ok: seq<bool>, i: nat, j: nat)
    requires |ok| <= |servers| && i < j < |ok| && ok[i] && ok[j]
    ensures exists a, b :: 0 <= a < b < |Passing(servers, ok)|
                           && Passing(servers, ok)[a] == servers[i] && Passing(servers, ok)[b] == servers[j]
  {
    PassingAt(servers, ok, i);
    PassingAt(servers, ok, j);
    RanksGrow(ok, i, j);
  }
}
