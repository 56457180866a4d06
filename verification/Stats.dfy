/** Per-server statistics: the record the collector keeps for each server, and what each collector call does
    to it. */
module Stats {

  datatype ServerStats = ServerStats(
    name: string,
    url: string,
    weight: int,
    isHealthy: bool,
    avgLatencyMs: real,
    p95LatencyMs: real,
    activeConnections: int,
    totalRequests: int,
    successCount: int,
    failureCount: int,
    retryCount: int,
    circuitState: string,
    highPriorityCount: int,
    lowPriorityCount: int,
    recentLatencies: seq<real>)

  function FreshStats(name: string, url: string, weight: int): ServerStats {
    ServerStats(name, url, weight, true, 0.0, 0.0, 0, 0, 0, 0, 0, "CLOSED", 0, 0, [])
  }

  /** The calls that touch one server's record. */
  datatype Op =
    | Start
    | End(latencyMs: real, success: bool)
    | Retry
    | Health(healthy: bool)
    | Circuit(state: string)
    | Priority(high: bool)
    | Clear
    | Import(from: ServerStats)

  const WINDOW := 100

  function Apply(s: ServerStats, op: Op): ServerStats {
    match op
    case Start => s.(activeConnections := s.activeConnections + 1)
    case End(latency, success) =>
      var window := Push(s.recentLatencies, latency);
      s.(activeConnections := if s.activeConnections - 1 < 0 then 0 else s.activeConnections - 1,
         totalRequests := s.totalRequests + 1,
         recentLatencies := window,
         avgLatencyMs := Mean(window),
         p95LatencyMs := P95(window),
         successCount := s.successCount + (if success then 1 else 0),
         failureCount := s.failureCount + (if success then 0 else 1))
    case Retry => s.(retryCount := s.retryCount + 1)
    case Health(healthy) => s.(isHealthy := healthy)
    case Circuit(state) => s.(circuitState := state)
    case Priority(high) =>
      if high then s.(highPriorityCount := s.highPriorityCount + 1)
      else s.(lowPriorityCount := s.lowPriorityCount + 1)
    case Clear => s.(recentLatencies := [], avgLatencyMs := 0.0, p95LatencyMs := 0.0)
    case Import(from) =>
      s.(totalRequests := from.totalRequests,
         successCount := from.successCount,
         failureCount := from.failureCount,
         retryCount := from.retryCount,
         highPriorityCount := from.highPriorityCount,
         lowPriorityCount := from.lowPriorityCount,
         avgLatencyMs := from.avgLatencyMs,
         p95LatencyMs := from.p95LatencyMs)
  }

  function ApplyAll(s: ServerStats, ops: seq<Op>): ServerStats {
    if ops == [] then s else Apply(ApplyAll(s, ops[..|ops| - 1]), ops[|ops| - 1])
  }

  /** One more sample; when there are too many, the oldest one goes. */
  function Push(window: seq<real>, latency: real): seq<real> {
    var longer := window + [latency];
    if |longer| > WINDOW then longer[1..] else longer
  }

  function LastN<T>(xs: seq<T>, n: nat): (r: seq<T>)
    ensures |r| == if |xs| <= n then |xs| else n
    ensures |r| <= |xs| && r == xs[|xs| - |r|..]
  {
    if |xs| <= n then xs else xs[|xs| - n..]
  }

  function Total(xs: seq<real>): real {
    if xs == [] then 0.0 else Total(xs[..|xs| - 1]) + xs[|xs| - 1]
  }

  function Mean(xs: seq<real>): real
    requires xs != []
  {
    Total(xs) / |xs| as real
  }

  // ------------------------------------------------------------------ the 95th percentile

  predicate Ascending(xs: seq<real>) {
    forall i, j :: 0 <= i < j < |xs| ==> xs[i] <= xs[j]
  }

  function InsertReal(x: real, xs: seq<real>): seq<real> {
    if xs == [] || x <= xs[0] then [x] + xs else [xs[0]] + InsertReal(x, xs[1..])
  }

  function SortReals(xs: seq<real>): (r: seq<real>)
    ensures |r| == |xs|
  {
    if xs == [] then [] else
      var rest := SortReals(xs[1..]);
      InsertLength(xs[0], rest);
      InsertReal(xs[0], rest)
  }

  lemma {:induction false} InsertLength(x: real, xs: seq<real>)
    ensures |InsertReal(x, xs)| == |xs| + 1
  {
    if xs != [] && !(x <= xs[0]) {
      InsertLength(x, xs[1..]);
    }
  }

  lemma {:induction false} InsertPermutes(x: real, xs: seq<real>)
    ensures multiset(InsertReal(x, xs)) == multiset(xs) + multiset{x}
  {
    if xs != [] && !(x <= xs[0]) {
      InsertPermutes(x, xs[1..]);
      assert xs == [xs[0]] + xs[1..];
    }
  }

  lemma {:induction false} InsertSorted(x: real, xs: seq<real>)
    requires Ascending(xs)
    ensures Ascending(InsertReal(x, xs))
  {
    if xs != [] && !(x <= xs[0]) {
      var rest := InsertReal(x, xs[1..]);
      InsertSorted(x, xs[1..]);
      InsertPermutes(x, xs[1..]);
      forall j | 0 <= j < |rest|
        ensures xs[0] <= rest[j]
      {
        assert rest[j] in multiset(rest);
        if rest[j] != x {
          var k :| 0 <= k < |xs[1..]| && xs[1..][k] == rest[j];
          assert xs[k + 1] == rest[j];
        }
      }
    }
  }

  lemma {:induction false} SortRealsSorts(xs: seq<real>)
    ensures Ascending(SortReals(xs)) && multiset(SortReals(xs)) == multiset(xs)
  {
    if xs != [] {
      SortRealsSorts(xs[1..]);
      InsertPermutes(xs[0], SortReals(xs[1..]));
      InsertSorted(xs[0], SortReals(xs[1..]));
      assert xs == [xs[0]] + xs[1..];
    }
  }

  /** Position of the percentile among n sorted samples: ceil(0.95 n) - 1. */
  function P95Index(n: nat): (i: int)
    requires n != 0
    ensures 0 <= i < n
    ensures 20 * i < 19 * n <= 20 * (i + 1)
  {
    (19 * n + 19) / 20 - 1
  }

  function P95(xs: seq<real>): real
    requires xs != []
  {
    SortReals(xs)[P95Index(|xs|)]
  }

  function CountAtMost(xs: seq<real>, v: real): nat {
    if xs == [] then 0 else CountAtMost(xs[1..], v) + (if xs[0] <= v then 1 else 0)
  }

  /** The smallest sample with at least 95% of the samples at or below it. */
  ghost predicate IsP95(v: real, xs: seq<real>) {
    && v in xs
    && 20 * CountAtMost(xs, v) >= 19 * |xs|
    && forall u :: u in xs && 20 * CountAtMost(xs, u) >= 19 * |xs| ==> v <= u
  }

  lemma {:induction false} CountConcat(a: seq<real>, b: seq<real>, v: real)
    ensures CountAtMost(a + b, v) == CountAtMost(a, v) + CountAtMost(b, v)
  {
    if a == [] {
      assert a + b == b;
    } else {
      assert (a + b)[1..] == a[1..] + b;
      CountConcat(a[1..], b, v);
    }
  }

  /** Counting does not depend on the order. */
  lemma {:induction false} CountPermuted(a: seq<real>, b: seq<real>, v: real)
    requires multiset(a) == multiset(b)
    ensures CountAtMost(a, v) == CountAtMost(b, v)
    decreases |a|
  {
    if a == [] {
      assert |multiset(b)| == 0;
    } else {
      assert a[0] in multiset(b);
      var i :| 0 <= i < |b| && b[i] == a[0];
      var others := b[..i] + b[i + 1..];
      assert b == b[..i] + ([b[i]] + b[i + 1..]);
      assert a == [a[0]] + a[1..];
      assert multiset(others) == multiset(b) - multiset{a[0]};
      CountPermuted(a[1..], others, v);
      CountConcat(b[..i], b[i + 1..], v);
      CountConcat(b[..i], [b[i]] + b[i + 1..], v);
    }
  }

  lemma {:induction false} CountBounds(xs: seq<real>, v: real, k: nat)
    requires k <= |xs|
    ensures (forall i :: 0 <= i < k ==> xs[i] <= v) ==> k <= CountAtMost(xs, v)
    ensures (forall i :: k <= i < |xs| ==> v < xs[i]) ==> CountAtMost(xs, v) <= k
  {
    if xs != [] {
      CountBounds(xs[1..], v, if k == 0 then 0 else k - 1);
      assert forall i :: 0 <= i < |xs| - 1 ==> xs[1..][i] == xs[i + 1];
    }
  }

  lemma SameSamples(a: seq<real>, b: seq<real>)
    requires multiset(a) == multiset(b)
    ensures |a| == |b| && forall u :: u in a <==> u in b
  {
    assert |multiset(a)| == |multiset(b)|;
    forall u
      ensures u in a <==> u in b
    {
      assert u in a <==> u in multiset(a);
      assert u in b <==> u in multiset(b);
    }
  }

  /** The percentile is the smallest sample with at least 95% of the samples at or below it. */
  lemma P95IsSmallest(xs: seq<real>)
    requires xs != []
    ensures IsP95(P95(xs), xs)
  {
    var sorted, k, v := SortReals(xs), P95Index(|xs|), P95(xs);
    SortRealsSorts(xs);
    SameSamples(sorted, xs);
    CountBounds(sorted, v, k + 1);
    CountPermuted(sorted, xs, v);
    assert sorted[k] == v;
    forall u | u in xs && u < v
      ensures 20 * CountAtMost(xs, u) < 19 * |xs|
    {
      CountBounds(sorted, u, k);
      CountPermuted(sorted, xs, u);
    }
  }

  /** The percentile does not depend on the order in which the samples arrived. */
  lemma P95IgnoresOrder(a: seq<real>, b: seq<real>)
    requires a != [] && multiset(a) == multiset(b)
    ensures b != [] && P95(a) == P95(b)
  {
    SameSamples(a, b);
    P95IsSmallest(a);
    P95IsSmallest(b);
    CountPermuted(a, b, P95(a));
    CountPermuted(a, b, P95(b));
  }

  // ------------------------------------------------------------------ the latency window over whole runs

  /** The latencies recorded since the window was last cleared. */
  function Samples(ops: seq<Op>): seq<real> {
    if ops == [] then [] else
      var earlier := Samples(ops[..|ops| - 1]);
      match ops[|ops| - 1]
      case End(latency, _) => earlier + [latency]
      case Clear => []
      case _ => earlier
  }

  lemma PushKeepsLast(xs: seq<real>, x: real)
    ensures Push(LastN(xs, WINDOW), x) == LastN(xs + [x], WINDOW)
  {
  }

  /** The window always holds the last min(100, m) of the m samples since it was cleared. */
  lemma {:induction false} WindowIsLastSamples(s: ServerStats, ops: seq<Op>)
    requires s.recentLatencies == []
    ensures ApplyAll(s, ops).recentLatencies == LastN(Samples(ops), 100)
  {
    if ops != [] {
      var earlier := ops[..|ops| - 1];
      WindowIsLastSamples(s, earlier);
      if ops[|ops| - 1].End? {
        PushKeepsLast(Samples(earlier), ops[|ops| - 1].latencyMs);
      }
    }
  }

  /** Right after a request ended, the average is the mean of the last min(100, m) samples and the percentile
      is the smallest of them with at least 95% of them at or below it. */
  lemma AveragesAfterEnd(s: ServerStats, ops: seq<Op>)
    requires s.recentLatencies == [] && ops != [] && ops[|ops| - 1].End?
    ensures var window := LastN(Samples(ops), 100);
            && window != []
            && ApplyAll(s, ops).avgLatencyMs == Mean(window)
            && IsP95(ApplyAll(s, ops).p95LatencyMs, window)
  {
    WindowIsLastSamples(s, ops);
    P95IsSmallest(LastN(Samples(ops), WINDOW));
  }
}
