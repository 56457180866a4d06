/** Averages and counters over whole runs of collector calls. */
module StatsRuns {
  import opened Stats
  import opened Metrics

  /** One more sample moves the mean by its own weight. */
  lemma MeanExtends(xs: seq<real>, x: real)
    ensures Mean([x]) == x
    ensures xs != [] ==> Mean(xs + [x]) * (|xs| + 1) as real == Mean(xs) * |xs| as real + x
  {
    assert (xs + [x])[..|xs|] == xs && [x][..0] == [];
    assert Total([]) == 0.0;
    if xs != [] {
      DivideBack(Total(xs), |xs| as real);
      DivideBack(Total(xs) + x, (|xs| + 1) as real);
    }
  }

  lemma DivideBack(a: real, b: real)
    requires b != 0.0
    ensures a / b * b == a
  {
  }

  // ------------------------------------------------------------------ counters over whole runs

  /** How many calls of a run are of a kind. */
  function HowOften(ops: seq<Op>, kind: Op -> bool): nat {
    if ops == [] then 0 else HowOften(ops[..|ops| - 1], kind) + (if kind(ops[|ops| - 1]) then 1 else 0)
  }

  /** Over every run without an import, each counter has grown by the number of calls it counts. */
  lemma {:induction false} CountersCount(s: ServerStats, ops: seq<Op>)
    requires forall i :: 0 <= i < |ops| ==> !ops[i].Import?
    ensures var r := ApplyAll(s, ops);
            && r.totalRequests == s.totalRequests + HowOften(ops, (o: Op) => o.End?)
            && r.successCount == s.successCount + HowOften(ops, (o: Op) => o.End? && o.success)
            && r.failureCount == s.failureCount + HowOften(ops, (o: Op) => o.End? && !o.success)
            && r.retryCount == s.retryCount + HowOften(ops, (o: Op) => o.Retry?)
            && r.highPriorityCount == s.highPriorityCount + HowOften(ops, (o: Op) => o.Priority? && o.high)
            && r.lowPriorityCount == s.lowPriorityCount + HowOften(ops, (o: Op) => o.Priority? && !o.high)
            && r.name == s.name && r.url == s.url && r.weight == s.weight
  {
    if ops != [] {
      CountersCount(s, ops[..|ops| - 1]);
    }
  }

  /** The latest health and circuit state reported are the ones shown. */
  lemma {:induction false} LatestReported(s: ServerStats, ops: seq<Op>, more: seq<Op>, op: Op)
    requires op.Health? || op.Circuit?
    requires forall i :: 0 <= i < |more| ==> (op.Health? ==> !more[i].Health?) && (op.Circuit? ==> !more[i].Circuit?)
    ensures var r := ApplyAll(s, ops + [op] + more);
            if op.Health? then r.isHealthy == op.healthy else r.circuitState == op.state
  {
    if more == [] {
      assert ops + [op] + more == ops + [op] && (ops + [op])[..|ops|] == ops;
    } else {
      var n := |more| - 1;
      LatestReported(s, ops, more[..n], op);
      assert (ops + [op] + more)[..|ops + [op] + more| - 1] == ops + [op] + more[..n];
      assert (ops + [op] + more)[|ops + [op] + more| - 1] == more[n];
    }
  }

  /** An import takes the traffic counters, the average and the percentile of the old record; connections, latency
      window, health, circuit state and identity stay. */
  lemma ImportTakes(s: ServerStats, from: ServerStats)
    ensures var r := Apply(s, Import(from));
            && r.totalRequests == from.totalRequests && r.successCount == from.successCount
            && r.failureCount == from.failureCount && r.retryCount == from.retryCount
            && r.highPriorityCount == from.highPriorityCount && r.lowPriorityCount == from.lowPriorityCount
            && r.avgLatencyMs == from.avgLatencyMs && r.p95LatencyMs == from.p95LatencyMs
            && r.name == s.name && r.url == s.url && r.weight == s.weight && r.isHealthy == s.isHealthy
            && r.activeConnections == s.activeConnections && r.circuitState == s.circuitState
            && r.recentLatencies == s.recentLatencies
  {
  }

  /** The success rate is a percentage: times the total it is a hundred times the successes. */
  lemma SuccessRateIsPercentage(ok: int, total: int)
    ensures total <= 0 ==> SuccessRate(ok, total) == 0.0
    ensures total > 0 ==> SuccessRate(ok, total) * total as real == 100.0 * ok as real
    ensures 0 <= ok <= total ==> 0.0 <= SuccessRate(ok, total) <= 100.0
  {
    if total > 0 {
      var x, t := ok as real, total as real;
      DivideBack(x, t);
      assert x / t * 100.0 * t == x / t * t * 100.0;
      if 0 <= ok <= total {
        Between(x, t);
      }
    }
  }

  lemma Between(x: real, t: real)
    requires 0.0 <= x <= t && 0.0 < t
    ensures 0.0 <= x / t <= 1.0
  {
  }
}
