/** Fairness when the health filter offers a different subset of the servers on every call. */
module SwrrFairness {
  import opened Sums
  import opened Swrr

  /** The state after a run of selections, one candidate list per call. */
  function After(s: State, calls: seq<seq<Url>>): State {
    if calls == [] then s
    else Step(After(s, calls[..|calls| - 1]), calls[|calls| - 1])
  }

  /** Any non-empty list of distinct, non-empty URLs of the known servers. */
  ghost predicate ProperCall(call: seq<Url>, known: set<Url>) {
    call != [] && Distinct(call) && "" !in call && SetOf(call) <= known
  }

  ghost predicate Proper(calls: seq<seq<Url>>, known: set<Url>) {
    forall i :: 0 <= i < |calls| ==> ProperCall(calls[i], known)
  }

  /** A state in which nothing has been selected yet. */
  ghost predicate Initial(s: State) {
    Sound(s) && forall u :: At(s.credit, u) == 0
  }

  function Weights(s: State, known: set<Url>): map<Url, int> {
    map u | u in known :: WeightOf(s, u)
  }

  ghost function TotalWeight(s: State, known: set<Url>): int {
    Sum(Weights(s, known), known)
  }

  function PickAt(s: State, calls: seq<seq<Url>>, i: nat): Url
    requires i < |calls|
  {
    Pick(After(s, calls[..i]), calls[i])
  }

  /** Every call of the run returned a server. */
  ghost predicate AllServed(s: State, calls: seq<seq<Url>>) {
    forall i :: 0 <= i < |calls| ==> PickAt(s, calls, i) != ""
  }

  /** What `u` was entitled to: its weight for every call that offered it. */
  function Entitled(s: State, calls: seq<seq<Url>>, u: Url): int {
    if calls == [] then 0 else
      var last := calls[|calls| - 1];
      Entitled(s, calls[..|calls| - 1], u) + (if u in last then WeightOf(s, u) else 0)
  }

  /** What `u` received: the whole weight on offer for every call that returned it. */
  function Received(s: State, calls: seq<seq<Url>>, u: Url): int {
    if calls == [] then 0 else
      var last := calls[|calls| - 1];
      Received(s, calls[..|calls| - 1], u)
      + (if PickAt(s, calls, |calls| - 1) == u then Total(s, last) else 0)
  }

  /** The credits sum to zero and no set of k servers is owed more than `cap(k)`. */
  ghost predicate Balanced(c: map<Url, int>, known: set<Url>, cap: int -> int) {
    && Sum(c, known) == 0
    && forall part {:trigger Within(c, part, cap)} :: part <= known ==> Within(c, part, cap)
  }

  ghost predicate Within(c: map<Url, int>, part: set<Url>, cap: int -> int) {
    Sum(c, part) <= cap(|part|)
  }

  /** A cap on what k of n servers may be owed that one selection with combined weight at most `total`
      cannot break. */
  ghost predicate Arched(cap: int -> int, total: int, n: int) {
    forall k :: 0 <= k <= n ==> ArchedAt(cap, total, n, k)
  }

  ghost predicate ArchedAt(cap: int -> int, total: int, n: int, k: int) {
    && 0 <= cap(k)
    && cap(n - k) == cap(k)
    && (1 <= k < n ==> cap(k - 1) + cap(k + 1) <= 2 * cap(k) - 2 * total)
  }

  /** The cap the balancer lives up to: W * k * (n - k). */
  function Cap(total: int, n: int): int -> int {
    k => total * (k * (n - k))
  }

  // ------------------------------------------------------------------ one selection

  /** How one charged selection moves the credit of a whole set of servers. */
  lemma {:induction false} ChargeMovesSum(w: map<Url, int>, c: map<Url, int>, c': map<Url, int>,
                                          offered: set<Url>, b: Url, total: int, part: set<Url>)
    requires forall u :: u in part ==>
               At(c', u) == At(c, u) + (if u in offered then At(w, u) else 0) - (if u == b then total else 0)
    ensures Sum(c', part) == Sum(c, part) + Sum(w, part * offered) - (if b in part then total else 0)
    decreases part
  {
    if part != {} {
      var k :| k in part;
      SumRemove(c', part, k);
      SumRemove(c, part, k);
      ChargeMovesSum(w, c, c', offered, b, total, part - {k});
      if k in offered {
        SumRemove(w, part * offered, k);
        assert part * offered - {k} == (part - {k}) * offered;
      } else {
        assert part * offered == (part - {k}) * offered;
      }
    }
  }

  /** A set that holds an offered server but not the chosen one: compare it with the set without that
      server and with the set extended by the chosen one. */
  lemma OweBoundOutside(w: map<Url, int>, c: map<Url, int>, known: set<Url>, offered: set<Url>,
                        b: Url, j: Url, part: set<Url>, less: int, cap: int, more: int)
    requires offered <= known && part <= known
    requires b in offered && b !in part && j in part && j in offered
    requires Sum(c, part - {j}) <= less && Sum(c, part + {b}) <= more
    requires less + more <= 2 * cap - 2 * Sum(w, known)
    requires At(c, j) + At(w, j) <= At(c, b) + At(w, b)
    requires forall u :: u in known ==> 1 <= At(w, u)
    ensures Sum(c, part) + Sum(w, part * offered) <= cap
  {
    SumRemove(c, part, j);
    SumRemove(c, part + {b}, b);
    assert part + {b} - {b} == part;
    // twice the set is at most the sum of its two neighbours plus w(b) - w(j)
    assert 2 * Sum(c, part) <= 2 * cap - 2 * Sum(w, known) + At(w, b) - At(w, j);
    var inside := part * offered;
    SumRemove(w, inside + {b}, b);
    assert inside + {b} - {b} == inside;
    SumSubset(w, inside + {b}, known);
  }

  lemma NeighbourSizes(known: set<Url>, part: set<Url>, b: Url, j: Url)
    requires part <= known && b in known && b !in part && j in part
    ensures part - {j} <= known && part + {b} <= known
    ensures |part - {j}| == |part| - 1 && |part + {b}| == |part| + 1
    ensures 1 <= |part| < |known|
  {
    assert known == (part + {b}) + (known - (part + {b}));
  }

  /** The same for a set of servers out of balanced credits. */
  lemma OweWithinCap(w: map<Url, int>, c: map<Url, int>, cap: int -> int, known: set<Url>, offered: set<Url>,
                     b: Url, j: Url, part: set<Url>)
    requires Arched(cap, Sum(w, known), |known|) && Balanced(c, known, cap)
    requires offered <= known && part <= known
    requires b in offered && b !in part && j in part && j in offered
    requires At(c, j) + At(w, j) <= At(c, b) + At(w, b)
    requires forall u :: u in known ==> 1 <= At(w, u)
    ensures Sum(c, part) + Sum(w, part * offered) <= cap(|part|)
  {
    NeighbourSizes(known, part, b, j);
    assert Within(c, part - {j}, cap) && Within(c, part + {b}, cap);
    assert ArchedAt(cap, Sum(w, known), |known|, |part|);
    OweBoundOutside(w, c, known, offered, b, j, part, cap(|part| - 1), cap(|part|), cap(|part| + 1));
  }

  /** One charged selection keeps the bound of one set of servers. */
  lemma ChargeKeepsPart(w: map<Url, int>, c: map<Url, int>, c': map<Url, int>, cap: int -> int,
                        known: set<Url>, offered: set<Url>, b: Url, part: set<Url>)
    requires Arched(cap, Sum(w, known), |known|) && Balanced(c, known, cap)
    requires offered <= known && b in offered && part <= known
    requires forall u :: u in known ==> 1 <= At(w, u)
    requires forall u :: u in offered ==> At(c, u) + At(w, u) <= At(c, b) + At(w, b)
    requires Sum(c', part) == Sum(c, part) + Sum(w, part * offered) - (if b in part then Sum(w, offered) else 0)
    ensures Within(c', part, cap)
  {
    assert Within(c, part, cap);
    if b in part {
      SumSubset(w, part * offered, offered);
    } else if j :| j in part * offered {
      OweWithinCap(w, c, cap, known, offered, b, j, part);
    } else {
      assert part * offered == {};
    }
  }

  /** One charged selection keeps the credits balanced, whatever subset was offered. */
  lemma ChargeKeepsBalance(w: map<Url, int>, c: map<Url, int>, c': map<Url, int>, cap: int -> int,
                           known: set<Url>, offered: set<Url>, b: Url)
    requires Arched(cap, Sum(w, known), |known|) && Balanced(c, known, cap)
    requires offered <= known && b in offered
    requires forall u :: u in known ==> 1 <= At(w, u)
    requires forall u :: u in offered ==> At(c, u) + At(w, u) <= At(c, b) + At(w, b)
    requires forall u :: u in known ==>
               At(c', u) == At(c, u) + (if u in offered then At(w, u) else 0)
                            - (if u == b then Sum(w, offered) else 0)
    ensures Balanced(c', known, cap)
  {
    ChargeMovesSum(w, c, c', offered, b, Sum(w, offered), known);
    assert known * offered == offered;
    forall part | part <= known
      ensures Within(c', part, cap)
    {
      ChargeMovesSum(w, c, c', offered, b, Sum(w, offered), part);
      ChargeKeepsPart(w, c, c', cap, known, offered, b, part);
    }
  }

  // ------------------------------------------------------------------ whole runs

  lemma {:induction false} RunSound(s: State, calls: seq<seq<Url>>)
    requires Sound(s)
    ensures Sound(After(s, calls))
    ensures forall u :: WeightOf(After(s, calls), u) == WeightOf(s, u)
  {
    if calls != [] {
      RunSound(s, calls[..|calls| - 1]);
      StepSound(After(s, calls[..|calls| - 1]), calls[|calls| - 1]);
    }
  }

  lemma TotalOfCall(s: State, now: State, call: seq<Url>, known: set<Url>)
    requires ProperCall(call, known)
    requires forall u :: WeightOf(now, u) == WeightOf(s, u)
    ensures Total(now, call) == Total(s, call) == Sum(Weights(s, known), SetOf(call))
  {
    TotalIsSum(now, call, |call|, Weights(s, known));
    TotalIsSum(s, call, |call|, Weights(s, known));
    assert call[..|call|] == call;
  }

  lemma AllServedPrefix(s: State, calls: seq<seq<Url>>)
    requires calls != []
    ensures AllServed(s, calls) <==>
              AllServed(s, calls[..|calls| - 1]) && PickAt(s, calls, |calls| - 1) != ""
  {
    var front := calls[..|calls| - 1];
    forall i | 0 <= i < |front|
      ensures PickAt(s, front, i) == PickAt(s, calls, i)
    {
      assert front[..i] == calls[..i];
    }
  }

  /** Over every run in which each call returned a server, the credits stay balanced. */
  lemma {:induction false} RunBalanced(s: State, calls: seq<seq<Url>>, known: set<Url>, cap: int -> int)
    requires Initial(s) && Proper(calls, known) && AllServed(s, calls)
    requires Arched(cap, TotalWeight(s, known), |known|)
    ensures Balanced(After(s, calls).credit, known, cap)
  {
    var w := Weights(s, known);
    if calls == [] {
      SumZero(s.credit, known);
      forall part | part <= known
        ensures Within(s.credit, part, cap)
      {
        SumZero(s.credit, part);
        assert |part| <= |known| by {
          assert known == part + (known - part);
        }
        assert ArchedAt(cap, TotalWeight(s, known), |known|, |part|);
      }
    } else {
      var front, last := calls[..|calls| - 1], calls[|calls| - 1];
      AllServedPrefix(s, calls);
      RunBalanced(s, front, known, cap);
      RunSound(s, front);
      var now := After(s, front);
      TotalOfCall(s, now, last, known);
      PickIsLargest(now, last);
      forall u | u in known
        ensures At(Step(now, last).credit, u)
             == At(now.credit, u) + (if u in SetOf(last) then At(w, u) else 0)
                - (if u == Pick(now, last) then Sum(w, SetOf(last)) else 0)
      {
        StepOnDistinct(now, last, u);
      }
      ChargeKeepsBalance(w, now.credit, Step(now, last).credit, cap, known, SetOf(last), Pick(now, last));
    }
  }

  /** The credit of a server is what it is entitled to minus what it received. */
  lemma {:induction false} CreditIsDebt(s: State, calls: seq<seq<Url>>, known: set<Url>, u: Url)
    requires Initial(s) && Proper(calls, known) && u != ""
    ensures At(After(s, calls).credit, u) == Entitled(s, calls, u) - Received(s, calls, u)
  {
    if calls != [] {
      var front, last := calls[..|calls| - 1], calls[|calls| - 1];
      CreditIsDebt(s, front, known, u);
      RunSound(s, front);
      TotalOfCall(s, After(s, front), last, known);
      StepOnDistinct(After(s, front), last, u);
    }
  }

  /** A balanced set is owed no less than the negated cap, because its complement is owed no more. */
  lemma BalancedBelow(c: map<Url, int>, known: set<Url>, cap: int -> int, total: int, part: set<Url>)
    requires Arched(cap, total, |known|) && Balanced(c, known, cap) && part <= known
    ensures -cap(|part|) <= Sum(c, part)
  {
    var others := known - part;
    assert others <= known && Within(c, others, cap);
    ComplementSum(c, known, part);
    assert ArchedAt(cap, total, |known|, |part|);
  }

  lemma ComplementSum(c: map<Url, int>, known: set<Url>, part: set<Url>)
    requires part <= known
    ensures Sum(c, known) == Sum(c, part) + Sum(c, known - part)
    ensures |known - part| == |known| - |part| && 0 <= |part| <= |known|
  {
    SumUnion(c, part, known - part);
    assert part + (known - part) == known;
  }

  lemma CapArched(s: State, known: set<Url>)
    requires Sound(s)
    ensures Arched(Cap(TotalWeight(s, known), |known|), TotalWeight(s, known), |known|)
  {
    var total, n := TotalWeight(s, known), |known|;
    SumSubset(Weights(s, known), {}, known);
    forall k | 0 <= k <= n
      ensures ArchedAt(Cap(total, n), total, n, k)
    {
      CapArchedAt(total, n, k);
    }
  }

  lemma CapArchedAt(total: int, n: int, k: int)
    requires 0 <= total && 0 <= k <= n
    ensures ArchedAt(Cap(total, n), total, n, k)
  {
    MulNonNegative(k, n - k);
    MulNonNegative(total, k * (n - k));
    assert (n - k) * (n - (n - k)) == k * (n - k);
    NeighbourCaps(total, k, n);
  }

  lemma MulNonNegative(a: int, b: int)
    requires 0 <= a && 0 <= b
    ensures 0 <= a * b
  {
  }

  lemma NeighbourCaps(total: int, k: int, n: int)
    ensures total * ((k - 1) * (n - (k - 1))) + total * ((k + 1) * (n - (k + 1)))
         == 2 * (total * (k * (n - k))) - 2 * total
  {
    var x := k * (n - k);
    assert (k - 1) * (n - (k - 1)) == x + 2 * k - n - 1;
    assert (k + 1) * (n - (k + 1)) == x - 2 * k + n - 1;
    assert total * (x + 2 * k - n - 1) + total * (x - 2 * k + n - 1) == total * (2 * x - 2);
    assert total * (2 * x - 2) == 2 * (total * x) - 2 * total;
  }

  /** Bounded unfairness: whatever subsets were offered, no set of k of the n servers is ever owed more than
      W * k * (n - k), nor has it been paid more than that in advance. */
  lemma BoundedUnfairness(s: State, calls: seq<seq<Url>>, known: set<Url>, part: set<Url>)
    requires Initial(s) && Proper(calls, known) && AllServed(s, calls)
    requires part <= known
    ensures Sum(After(s, calls).credit, known) == 0
    ensures var w, k, n := TotalWeight(s, known), |part|, |known|;
            -(w * (k * (n - k))) <= Sum(After(s, calls).credit, part) <= w * (k * (n - k))
  {
    var cap := Cap(TotalWeight(s, known), |known|);
    CapArched(s, known);
    RunBalanced(s, calls, known, cap);
    BalancedBelow(After(s, calls).credit, known, cap, TotalWeight(s, known), part);
    assert Within(After(s, calls).credit, part, cap);
    assert cap(|part|) == TotalWeight(s, known) * (|part| * (|known| - |part|));
  }

  /** For a single server: what it was entitled to and what it received differ by at most (n - 1) * W. */
  lemma BoundedUnfairnessOfOne(s: State, calls: seq<seq<Url>>, known: set<Url>, u: Url)
    requires Initial(s) && Proper(calls, known) && AllServed(s, calls)
    requires u in known && u != ""
    ensures -((|known| - 1) * TotalWeight(s, known))
         <= Entitled(s, calls, u) - Received(s, calls, u)
         <= (|known| - 1) * TotalWeight(s, known)
  {
    BoundedUnfairness(s, calls, known, {u});
    SumRemove(After(s, calls).credit, {u}, u);
    assert {u} - {u} == {};
    CreditIsDebt(s, calls, known, u);
    CapOfOne(TotalWeight(s, known), |{u}|, |known|);
  }

  lemma CapOfOne(total: int, k: int, n: int)
    requires k == 1
    ensures total * (k * (n - k)) == (n - 1) * total
  {
  }

  // ------------------------------------------------------------------ the sentinel

  /** With (n - 1) * W < 2^30 no selection ever comes back empty-handed. */
  lemma {:induction false} SentinelSound(s: State, calls: seq<seq<Url>>, known: set<Url>)
    requires Initial(s) && Proper(calls, known)
    requires (|known| - 1) * TotalWeight(s, known) < -SENTINEL
    ensures AllServed(s, calls)
    ensures forall i :: 0 <= i < |calls| ==> PickAt(s, calls, i) in calls[i]
  {
    if calls != [] {
      var front, last := calls[..|calls| - 1], calls[|calls| - 1];
      SentinelSound(s, front, known);
      var u := last[0];
      BoundedUnfairnessOfOne(s, front, known, u);
      CreditIsDebt(s, front, known, u);
      RunSound(s, front);
      PickIsLargest(After(s, front), last);
      AllServedPrefix(s, calls);
    }
  }

  /** The credits sum to the weight on offer in the calls that returned no server, so they sum to zero
      exactly when every call returned one. */
  lemma {:induction false} SumZeroIffServed(s: State, calls: seq<seq<Url>>, known: set<Url>)
    requires Initial(s) && Proper(calls, known)
    ensures Sum(After(s, calls).credit, known) >= 0
    ensures Sum(After(s, calls).credit, known) == 0 <==> AllServed(s, calls)
  {
    if calls == [] {
      SumZero(s.credit, known);
    } else {
      var front, last := calls[..|calls| - 1], calls[|calls| - 1];
      var now := After(s, front);
      SumZeroIffServed(s, front, known);
      AllServedPrefix(s, calls);
      RunSound(s, front);
      TotalOfCall(s, now, last, known);
      TotalPositive(now, last, |last|);
      var b := Pick(now, last);
      var paid := if b == "" then 0 else Total(now, last);
      forall u | u in known
        ensures At(Step(now, last).credit, u)
             == At(now.credit, u) + (if u in SetOf(last) then At(Weights(s, known), u) else 0)
                - (if u == b then paid else 0)
      {
        StepOnDistinct(now, last, u);
      }
      ChargeMovesSum(Weights(s, known), now.credit, Step(now, last).credit, SetOf(last), b, paid, known);
      assert known * SetOf(last) == SetOf(last);
    }
  }

  /** Without the bound on the weights the sentinel does fire: with one light server and two of any weight
      above 2^30, the third of three calls returns no server. */
  lemma SentinelCanFail(s: State, light: Url, x: Url, y: Url)
    requires Initial(s) && light != x && x != y && light != y && "" != light && "" != x && "" != y
    requires WeightOf(s, light) == 1 && WeightOf(s, x) == WeightOf(s, y) > -SENTINEL
    ensures Proper([[x, y], [light, x], [light]], {light, x, y})
    ensures PickAt(s, [[x, y], [light, x], [light]], 2) == ""
  {
    PairIsProper(x, y, {light, x, y});
    PairIsProper(light, x, {light, x, y});
    ThreeCallsProper([x, y], [light, x], [light], {light, x, y});
    ThirdComesBackEmpty(s, light, x, y);
    ThreeCalls(s, [x, y], [light, x], [light]);
  }

  lemma PairIsProper(x: Url, y: Url, known: set<Url>)
    requires x != y && x != "" && y != "" && x in known && y in known
    ensures ProperCall([x, y], known) && ProperCall([x], known)
  {
  }

  lemma ThreeCallsProper(a: seq<Url>, b: seq<Url>, c: seq<Url>, known: set<Url>)
    requires ProperCall(a, known) && ProperCall(b, known) && ProperCall(c, known)
    ensures Proper([a, b, c], known)
  {
  }

  lemma ThirdComesBackEmpty(s: State, light: Url, x: Url, y: Url)
    requires Initial(s) && light != x && x != y && light != y && "" != light && "" != x && "" != y
    requires WeightOf(s, light) == 1 && WeightOf(s, x) == WeightOf(s, y) > -SENTINEL
    ensures Pick(Step(Step(s, [x, y]), [light, x]), [light]) == ""
  {
    var s1 := Step(s, [x, y]);
    StepSound(s, [x, y]);
    StepSound(s1, [light, x]);
    SmallStep(s, x, y, light);
    SmallStep(s, x, y, x);
    SmallStep(s1, light, x, light);
    PickIsLargest(Step(s1, [light, x]), [light]);
  }

  lemma ThreeCalls(s: State, a: seq<Url>, b: seq<Url>, c: seq<Url>)
    ensures PickAt(s, [a, b, c], 2) == Pick(Step(Step(s, a), b), c)
  {
    assert [a, b, c][..2] == [a, b] && [a, b][..1] == [a] && [a][..0] == [];
    assert After(s, []) == s;
    assert After(s, [a]) == Step(s, a);
  }

  /** A selection between two candidates of which the first is not behind. */
  lemma SmallStep(s: State, x: Url, y: Url, u: Url)
    requires Sound(s) && x != y && x != "" && y != ""
    requires SENTINEL < At(s.credit, x) + WeightOf(s, x)
    requires At(s.credit, y) + WeightOf(s, y) <= At(s.credit, x) + WeightOf(s, x)
    ensures At(Step(s, [x, y]).credit, u)
         == At(s.credit, u) + (if u == y then WeightOf(s, y) else 0) - (if u == x then WeightOf(s, y) else 0)
  {
    RunningOnce(s, [x, y], 0);
    RunningOnce(s, [x, y], 1);
    assert Best(s, [x, y], 1) == 0;
    assert Best(s, [x, y], 2) == 0;
    assert TotalUpTo(s, [x, y], 1) == WeightOf(s, x);
    StepOnDistinct(s, [x, y], u);
  }
}
