/** Smooth weighted round robin: what one selection does to the credits, as a function of the credits
    before it. The class that updates its maps in place is in Canary.dfy. */
module Swrr {
  import opened Sums

  type Url = string

  /** The running best starts at -1 << 30. */
  const SENTINEL := -0x4000_0000

  /** Weight given to a candidate that is met for the first time during a selection. */
  const LATE_WEIGHT := 1

  datatype State = State(weight: map<Url, int>, credit: map<Url, int>)

  function WeightOf(s: State, u: Url): int {
    if u in s.weight then s.weight[u] else LATE_WEIGHT
  }

  /** Every stored weight is positive, and weights and credits are stored for the same servers. */
  ghost predicate Sound(s: State) {
    && s.weight.Keys == s.credit.Keys
    && forall u :: u in s.weight ==> 1 <= s.weight[u]
  }

  function SetOf(cands: seq<Url>): set<Url> {
    set u | u in cands
  }

  ghost predicate Distinct(cands: seq<Url>) {
    forall i, j :: 0 <= i < j < |cands| ==> cands[i] != cands[j]
  }

  /** The combined weight of the first `n` candidates, each counted as often as it is listed. */
  function TotalUpTo(s: State, cands: seq<Url>, n: nat): int
    requires n <= |cands|
  {
    if n == 0 then 0 else TotalUpTo(s, cands, n - 1) + WeightOf(s, cands[n - 1])
  }

  function Total(s: State, cands: seq<Url>): int {
    TotalUpTo(s, cands, |cands|)
  }

  /** What the first `n` candidates bring to the credit of `u`: its weight once per listing. */
  function Gain(s: State, cands: seq<Url>, n: nat, u: Url): int
    requires n <= |cands|
  {
    if n == 0 then 0
    else Gain(s, cands, n - 1, u) + (if cands[n - 1] == u then WeightOf(s, u) else 0)
  }

  /** The credit of the i-th candidate right after it has been topped up. */
  function Running(s: State, cands: seq<Url>, i: nat): int
    requires i < |cands|
  {
    At(s.credit, cands[i]) + Gain(s, cands, i + 1, cands[i])
  }

  /** The position chosen among the first `n`, -1 for none; FirstLargest says which one it is. */
  function Best(s: State, cands: seq<Url>, n: nat): (k: int)
    requires n <= |cands|
    ensures -1 <= k < n
  {
    if n == 0 then -1 else
      var k := Best(s, cands, n - 1);
      if Running(s, cands, n - 1) > (if k == -1 then SENTINEL else Running(s, cands, k)) then n - 1 else k
  }

  /** The chosen position is the first one whose topped-up credit is largest, and there is one exactly
      when some topped-up credit beats the sentinel. */
  lemma {:induction false} FirstLargest(s: State, cands: seq<Url>, n: nat)
    requires n <= |cands|
    ensures var k := Best(s, cands, n);
            && (k == -1 <==> forall i :: 0 <= i < n ==> Running(s, cands, i) <= SENTINEL)
            && (k != -1 ==>
                  && SENTINEL < Running(s, cands, k)
                  && (forall i :: 0 <= i < n ==> Running(s, cands, i) <= Running(s, cands, k))
                  && (forall i :: 0 <= i < k ==> Running(s, cands, i) < Running(s, cands, k)))
  {
    if n != 0 {
      FirstLargest(s, cands, n - 1);
    }
  }

  /** The server returned, "" for none. */
  function Pick(s: State, cands: seq<Url>): (b: Url)
    ensures b == "" || b in cands
  {
    var k := Best(s, cands, |cands|);
    if k == -1 then "" else cands[k]
  }

  function Register(s: State, cands: seq<Url>): map<Url, int> {
    map u | u in s.weight.Keys + SetOf(cands) :: WeightOf(s, u)
  }

  /** The credits once the first `n` candidates have been topped up, nothing charged yet. */
  function ToppedUp(s: State, cands: seq<Url>, n: nat): map<Url, int>
    requires n <= |cands|
  {
    map u | u in s.weight.Keys + SetOf(cands) :: At(s.credit, u) + Gain(s, cands, n, u)
  }

  lemma RegisterOneMore(s: State, cands: seq<Url>, i: nat)
    requires Sound(s) && i < |cands|
    ensures cands[i] in Register(s, cands[..i]) ==>
              Register(s, cands[..i + 1]) == Register(s, cands[..i])
              && Register(s, cands[..i])[cands[i]] == WeightOf(s, cands[i])
              && ToppedUp(s, cands[..i + 1], 0) == ToppedUp(s, cands[..i], 0)
    ensures cands[i] !in Register(s, cands[..i]) ==>
              Register(s, cands[..i + 1]) == Register(s, cands[..i])[cands[i] := LATE_WEIGHT]
              && WeightOf(s, cands[i]) == LATE_WEIGHT
              && ToppedUp(s, cands[..i + 1], 0) == ToppedUp(s, cands[..i], 0)[cands[i] := 0]
  {
    assert cands[..i + 1] == cands[..i] + [cands[i]];
    assert SetOf(cands[..i + 1]) == SetOf(cands[..i]) + {cands[i]};
  }

  lemma TopUpOneMore(s: State, cands: seq<Url>, i: nat)
    requires i < |cands|
    ensures cands[i] in ToppedUp(s, cands, i) && cands[i] in Register(s, cands)
    ensures ToppedUp(s, cands, i + 1)
         == ToppedUp(s, cands, i)[cands[i] := ToppedUp(s, cands, i)[cands[i]] + WeightOf(s, cands[i])]
    ensures ToppedUp(s, cands, i + 1)[cands[i]] == Running(s, cands, i)
  {
    var next := ToppedUp(s, cands, i)[cands[i] := ToppedUp(s, cands, i)[cands[i]] + WeightOf(s, cands[i])];
    assert next.Keys == ToppedUp(s, cands, i + 1).Keys;
  }

  /** The state after a selection: every listed candidate is topped up by its weight, and the chosen one
      pays the combined weight. */
  function Step(s: State, cands: seq<Url>): State {
    if cands == [] then s else
      var topped := ToppedUp(s, cands, |cands|);
      var b := Pick(s, cands);
      State(Register(s, cands), if b == "" then topped else topped[b := topped[b] - Total(s, cands)])
  }

  lemma {:induction false} TotalPositive(s: State, cands: seq<Url>, n: nat)
    requires Sound(s) && n <= |cands|
    ensures n <= TotalUpTo(s, cands, n)
  {
    if n != 0 {
      TotalPositive(s, cands, n - 1);
    }
  }

  /** In any list, a candidate is topped up once per listing. */
  lemma {:induction false} GainPerListing(s: State, cands: seq<Url>, n: nat, u: Url)
    requires n <= |cands|
    ensures Gain(s, cands, n, u) == multiset(cands[..n])[u] * WeightOf(s, u)
  {
    if n != 0 {
      GainPerListing(s, cands, n - 1, u);
      assert cands[..n] == cands[..n - 1] + [cands[n - 1]];
      var before := multiset(cands[..n - 1])[u];
      assert (before + 1) * WeightOf(s, u) == before * WeightOf(s, u) + WeightOf(s, u);
    }
  }

  function Gains(s: State, cands: seq<Url>, n: nat): map<Url, int>
    requires n <= |cands|
  {
    map u | u in SetOf(cands) :: Gain(s, cands, n, u)
  }

  /** The combined weight is what all candidates together are topped up by. */
  lemma {:induction false} TotalIsAllGains(s: State, cands: seq<Url>, n: nat)
    requires n <= |cands|
    ensures TotalUpTo(s, cands, n) == Sum(Gains(s, cands, n), SetOf(cands))
  {
    if n == 0 {
      SumZero(Gains(s, cands, 0), SetOf(cands));
    } else {
      var c := cands[n - 1];
      TotalIsAllGains(s, cands, n - 1);
      var one := map[c := WeightOf(s, c)];
      SumAdd(Gains(s, cands, n), Gains(s, cands, n - 1), one, SetOf(cands));
      SumRemove(one, SetOf(cands), c);
      SumZero(one, SetOf(cands) - {c});
    }
  }

  /** Without repetitions a candidate is topped up once. */
  lemma {:induction false} GainOnce(s: State, cands: seq<Url>, n: nat, u: Url)
    requires Distinct(cands) && n <= |cands|
    ensures Gain(s, cands, n, u) == if u in cands[..n] then WeightOf(s, u) else 0
  {
    if n != 0 {
      GainOnce(s, cands, n - 1, u);
      assert cands[..n] == cands[..n - 1] + [cands[n - 1]];
    }
  }

  lemma RunningOnce(s: State, cands: seq<Url>, i: nat)
    requires Distinct(cands) && i < |cands|
    ensures Running(s, cands, i) == At(s.credit, cands[i]) + WeightOf(s, cands[i])
  {
    GainOnce(s, cands, i + 1, cands[i]);
    assert cands[..i + 1][i] == cands[i];
  }

  lemma {:induction false} TotalIsSum(s: State, cands: seq<Url>, n: nat, w: map<Url, int>)
    requires Distinct(cands) && n <= |cands|
    requires forall u :: u in cands ==> At(w, u) == WeightOf(s, u)
    ensures TotalUpTo(s, cands, n) == Sum(w, SetOf(cands[..n]))
  {
    if n != 0 {
      TotalIsSum(s, cands, n - 1, w);
      assert SetOf(cands[..n]) - {cands[n - 1]} == SetOf(cands[..n - 1]);
      assert cands[..n][n - 1] == cands[n - 1];
      SumRemove(w, SetOf(cands[..n]), cands[n - 1]);
    }
  }

  /** Over a list without repetitions, a selection tops up each listed server once and charges the chosen
      one the combined weight; other credits stay. */
  lemma StepOnDistinct(s: State, cands: seq<Url>, u: Url)
    requires Distinct(cands) && Sound(s)
    ensures At(Step(s, cands).credit, u)
         == At(s.credit, u)
            + (if u in cands then WeightOf(s, u) else 0)
            - (if u == Pick(s, cands) && u != "" then Total(s, cands) else 0)
  {
    GainOnce(s, cands, |cands|, u);
    assert cands[..|cands|] == cands;
  }

  /** The chosen server is the first one with the largest topped-up credit, and none is chosen exactly when all
      are at or below -2^30. */
  lemma PickIsLargest(s: State, cands: seq<Url>)
    requires Distinct(cands) && "" !in cands
    ensures Pick(s, cands) == "" <==> forall u :: u in cands ==> At(s.credit, u) + WeightOf(s, u) <= -0x4000_0000
    ensures var b := Pick(s, cands);
            b != "" ==> forall u :: u in cands ==>
                          At(s.credit, u) + WeightOf(s, u) <= At(s.credit, b) + WeightOf(s, b)
    ensures var b := Pick(s, cands);
            forall i, j :: 0 <= i < j < |cands| && cands[j] == b ==>
              At(s.credit, cands[i]) + WeightOf(s, cands[i]) < At(s.credit, b) + WeightOf(s, b)
  {
    FirstLargest(s, cands, |cands|);
    forall i | 0 <= i < |cands|
      ensures Running(s, cands, i) == At(s.credit, cands[i]) + WeightOf(s, cands[i])
    {
      RunningOnce(s, cands, i);
    }
  }

  /** A selection keeps the stored weights positive and keeps every server's weight. */
  lemma StepSound(s: State, cands: seq<Url>)
    requires Sound(s)
    ensures Sound(Step(s, cands))
    ensures forall u :: WeightOf(Step(s, cands), u) == WeightOf(s, u)
  {
  }
}
