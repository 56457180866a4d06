/** The schedule when the same candidates are offered on every call. */
module SwrrSchedule {
  import opened Sums
  import opened Swrr
  import Runs = SwrrFairness

  /** A run of selections from the same list: the states before and after each call, and the picks. */
  ghost predicate IsRun(list: seq<Url>, states: seq<State>, picks: seq<Url>) {
    && |states| == |picks| + 1
    && Sound(states[0])
    && list != [] && Distinct(list) && "" !in list
    && forall i :: 0 <= i < |picks| ==> CallAt(list, states, picks, i)
  }

  ghost predicate CallAt(list: seq<Url>, states: seq<State>, picks: seq<Url>, i: nat)
    requires i < |picks| && |states| == |picks| + 1
  {
    picks[i] == Pick(states[i], list) && states[i + 1] == Step(states[i], list)
  }

  /** A run whose listed servers start without credit. */
  ghost predicate FreshRun(list: seq<Url>, states: seq<State>, picks: seq<Url>) {
    IsRun(list, states, picks) && forall u :: u in list ==> At(states[0].credit, u) == 0
  }

  /** How often `u` is picked by the calls from..until - 1. */
  function Count(picks: seq<Url>, from: nat, until: nat, u: Url): nat
    requires from <= until <= |picks|
    decreases until
  {
    if from == until then 0
    else Count(picks, from, until - 1, u) + (if picks[until - 1] == u then 1 else 0)
  }

  // ------------------------------------------------------------------ what the calls of a run do to credits

  /** One call: every server of the list earns its weight, the picked one pays `n`, and it could afford
      at least 1 before paying. */
  ghost predicate CallEffect(all: set<Url>, w: map<Url, int>, n: int,
                             c: map<Url, int>, c': map<Url, int>, b: Url) {
    && b in all
    && 1 <= At(c, b) + At(w, b)
    && forall u :: u in all ==> At(c', u) == At(c, u) + At(w, u) - (if u == b then n else 0)
  }

  ghost predicate EffectAt(all: set<Url>, w: map<Url, int>, n: int, credits: seq<map<Url, int>>, picks: seq<Url>, i: nat)
    requires i < |picks| && |credits| == |picks| + 1
  {
    CallEffect(all, w, n, credits[i], credits[i + 1], picks[i])
  }

  /** A record of credits and picks that starts from zero credits and whose first `t` calls have that effect. */
  ghost predicate Follows(all: set<Url>, w: map<Url, int>, n: int,
                          credits: seq<map<Url, int>>, picks: seq<Url>, t: nat) {
    && t <= |picks| && |credits| == |picks| + 1
    && (forall u :: u in all ==> At(credits[0], u) == 0)
    && forall i :: 0 <= i < t ==> EffectAt(all, w, n, credits, picks, i)
  }

  /** The credits keep their sum. */
  lemma {:induction false} SumStaysZero(all: set<Url>, w: map<Url, int>, n: int,
                                        credits: seq<map<Url, int>>, picks: seq<Url>, t: nat)
    requires Follows(all, w, n, credits, picks, t) && n == Sum(w, all)
    ensures Sum(credits[t], all) == 0
  {
    if t == 0 {
      SumZero(credits[0], all);
    } else {
      SumStaysZero(all, w, n, credits, picks, t - 1);
      assert EffectAt(all, w, n, credits, picks, t - 1);
      CallKeepsSum(all, w, n, credits[t - 1], credits[t], picks[t - 1]);
    }
  }

  lemma CallKeepsSum(all: set<Url>, w: map<Url, int>, n: int, c: map<Url, int>, c': map<Url, int>, b: Url)
    requires CallEffect(all, w, n, c, c', b) && n == Sum(w, all)
    ensures Sum(c', all) == Sum(c, all)
  {
    var charge := map[b := -n];
    var moved := map u | u in all :: At(w, u) + At(charge, u);
    SumAdd(moved, w, charge, all);
    SumAdd(c', c, moved, all);
    SumRemove(charge, all, b);
    SumZero(charge, all - {b});
  }

  /** No credit ever falls to -n or below. */
  lemma {:induction false} StaysAbove(all: set<Url>, w: map<Url, int>, n: int,
                                      credits: seq<map<Url, int>>, picks: seq<Url>, t: nat, u: Url)
    requires Follows(all, w, n, credits, picks, t) && 1 <= n && u in all
    requires forall v :: v in all ==> 0 <= At(w, v)
    ensures -n < At(credits[t], u)
  {
    if t != 0 {
      StaysAbove(all, w, n, credits, picks, t - 1, u);
      assert EffectAt(all, w, n, credits, picks, t - 1);
    }
  }

  /** The credit is the number of calls times the weight, minus n per pick. */
  lemma {:induction false} CreditFormula(all: set<Url>, w: map<Url, int>, n: int, credits: seq<map<Url, int>>,
                                         picks: seq<Url>, t: nat, u: Url, wu: int)
    requires Follows(all, w, n, credits, picks, t) && u in all && At(w, u) == wu
    ensures At(credits[t], u) == t * wu - n * Count(picks, 0, t, u)
  {
    if t != 0 {
      CreditFormula(all, w, n, credits, picks, t - 1, u, wu);
      assert EffectAt(all, w, n, credits, picks, t - 1);
      FormulaStep(At(credits[t - 1], u), At(credits[t], u), t, wu, n,
                  Count(picks, 0, t - 1, u), Count(picks, 0, t, u), picks[t - 1] == u);
    }
  }

  lemma FormulaStep(c: int, c': int, t: int, w: int, n: int, p: int, p': int, hit: bool)
    requires c == (t - 1) * w - n * p
    requires c' == c + w - (if hit then n else 0)
    requires p' == p + (if hit then 1 else 0)
    ensures c' == t * w - n * p'
  {
    assert t * w == (t - 1) * w + w;
    assert n * (p + 1) == n * p + n;
  }

  function Counts(all: set<Url>, picks: seq<Url>, t: nat): map<Url, int>
    requires t <= |picks|
  {
    map u | u in all :: Count(picks, 0, t, u)
  }

  /** Every pick is counted for exactly one server. */
  lemma {:induction false} CountsSum(all: set<Url>, picks: seq<Url>, t: nat)
    requires t <= |picks| && forall i :: 0 <= i < t ==> picks[i] in all
    ensures Sum(Counts(all, picks, t), all) == t
  {
    if t == 0 {
      SumZero(Counts(all, picks, t), all);
    } else {
      var b := picks[t - 1];
      CountsSum(all, picks, t - 1);
      var one := map[b := 1];
      SumAdd(Counts(all, picks, t), Counts(all, picks, t - 1), one, all);
      SumRemove(one, all, b);
      SumZero(one, all - {b});
    }
  }

  lemma {:induction false} CountSplit(picks: seq<Url>, mid: nat, until: nat, u: Url)
    requires mid <= until <= |picks|
    ensures Count(picks, 0, until, u) == Count(picks, 0, mid, u) + Count(picks, mid, until, u)
  {
    if mid < until {
      CountSplit(picks, mid, until - 1, u);
    }
  }

  /** After n calls every server has been picked exactly as often as its weight says. */
  lemma FullPeriod(all: set<Url>, w: map<Url, int>, n: nat,
                   credits: seq<map<Url, int>>, picks: seq<Url>, u: Url)
    requires Follows(all, w, n, credits, picks, n) && u in all
    requires n == Sum(w, all) && 1 <= n
    requires forall v :: v in all ==> 0 <= At(w, v)
    ensures Count(picks, 0, n, u) == At(w, u)
    ensures At(credits[n], u) == 0
  {
    forall v | v in all
      ensures At(Counts(all, picks, n), v) <= At(w, v)
    {
      StaysAbove(all, w, n, credits, picks, n, v);
      CreditFormula(all, w, n, credits, picks, n, v, At(w, v));
      AtMostQuota(Count(picks, 0, n, v), At(w, v), n);
    }
    forall i | 0 <= i < n
      ensures picks[i] in all
    {
      assert EffectAt(all, w, n, credits, picks, i);
    }
    CountsSum(all, picks, n);
    SumTight(Counts(all, picks, n), w, all, u);
    CreditFormula(all, w, n, credits, picks, n, u, At(w, u));
  }

  lemma AtMostQuota(p: int, w: int, n: int)
    requires 1 <= n && -n < n * w - n * p
    ensures p <= w
  {
    assert n * p < n * (w + 1);
  }

  lemma BelowCeiling(p: int, t: int, w: int, n: int, c: int)
    requires 1 <= n && -n < c && c == t * w - n * p
    ensures p <= (t * w + n - 1) / n
  {
    var x := t * w + n - 1;
    assert n * p <= x;
    DivAtLeast(p, x, n);
  }

  lemma DivAtLeast(p: int, x: int, n: int)
    requires 1 <= n && n * p <= x
    ensures p <= x / n
  {
    var q := x / n;
    assert x == n * q + x % n;
    assert n * (q + 1) == n * q + n;
    if p > q {
      TimesMonotone(n, q + 1, p);
    }
  }

  lemma TimesMonotone(n: int, a: int, b: int)
    requires 0 <= n && a <= b
    ensures n * a <= n * b
  {
  }

  // ------------------------------------------------------------------ runs of the balancer have this effect

  function CreditsOf(states: seq<State>): (credits: seq<map<Url, int>>)
    ensures |credits| == |states|
    ensures forall i :: 0 <= i < |states| ==> credits[i] == states[i].credit
  {
    seq(|states|, i requires 0 <= i < |states| => states[i].credit)
  }

  lemma {:induction false} RunSound(list: seq<Url>, states: seq<State>, picks: seq<Url>, t: nat)
    requires IsRun(list, states, picks) && t <= |picks|
    ensures Sound(states[t])
    ensures forall u :: WeightOf(states[t], u) == WeightOf(states[0], u)
    ensures Total(states[t], list) == Total(states[0], list)
  {
    if t != 0 {
      RunSound(list, states, picks, t - 1);
      assert CallAt(list, states, picks, t - 1);
      StepSound(states[t - 1], list);
    }
    SameTotal(states[0], states[t], list, |list|);
  }

  lemma {:induction false} SameTotal(s: State, r: State, list: seq<Url>, n: nat)
    requires n <= |list|
    requires forall u :: WeightOf(s, u) == WeightOf(r, u)
    ensures TotalUpTo(s, list, n) == TotalUpTo(r, list, n)
  {
    if n != 0 {
      SameTotal(s, r, list, n - 1);
    }
  }

  lemma TotalFacts(s: State, list: seq<Url>)
    requires Sound(s) && list != [] && Distinct(list)
    ensures 1 <= Total(s, list) == Sum(Runs.Weights(s, SetOf(list)), SetOf(list))
  {
    TotalIsSum(s, list, |list|, Runs.Weights(s, SetOf(list)));
    assert list[..|list|] == list;
    TotalPositive(s, list, |list|);
  }

  /** When the credits of the list sum to zero, some server is picked and its topped-up credit is positive. */
  lemma PickIsPositive(s: State, list: seq<Url>)
    requires Sound(s) && list != [] && Distinct(list) && "" !in list
    requires Sum(s.credit, SetOf(list)) == 0
    ensures var b := Pick(s, list);
            b in list && b != "" && 1 <= At(s.credit, b) + WeightOf(s, b)
  {
    var w, all := Runs.Weights(s, SetOf(list)), SetOf(list);
    TotalFacts(s, list);
    PickIsLargest(s, list);
    if forall u :: u in list ==> At(s.credit, u) + WeightOf(s, u) <= 0 {
      var topped := map u | u in all :: At(s.credit, u) + At(w, u);
      SumAdd(topped, s.credit, w, all);
      SumAtMost(topped, map[], all);
      SumZero<Url>(map[], all);
      assert false;
    }
  }

  lemma StepEffect(s: State, list: seq<Url>)
    requires Sound(s) && list != [] && Distinct(list) && "" !in list
    requires Sum(s.credit, SetOf(list)) == 0
    ensures CallEffect(SetOf(list), Runs.Weights(s, SetOf(list)), Total(s, list), s.credit, Step(s, list).credit, Pick(s, list))
  {
    PickIsPositive(s, list);
    forall u | u in list
      ensures At(Step(s, list).credit, u)
           == At(s.credit, u) + WeightOf(s, u) - (if u == Pick(s, list) then Total(s, list) else 0)
    {
      StepOnDistinct(s, list, u);
    }
  }

  /** Every call of a fresh run has the effect of a call. */
  lemma {:induction false} RunFollows(list: seq<Url>, states: seq<State>, picks: seq<Url>, t: nat)
    requires FreshRun(list, states, picks) && t <= |picks|
    ensures Follows(SetOf(list), Runs.Weights(states[0], SetOf(list)), Total(states[0], list), CreditsOf(states), picks, t)
  {
    if t != 0 {
      var all, w, n := SetOf(list), Runs.Weights(states[0], SetOf(list)), Total(states[0], list);
      RunFollows(list, states, picks, t - 1);
      TotalFacts(states[0], list);
      SumStaysZero(all, w, n, CreditsOf(states), picks, t - 1);
      RunSound(list, states, picks, t - 1);
      StepEffect(states[t - 1], list);
      assert Runs.Weights(states[t - 1], SetOf(list)) == w;
      assert CallAt(list, states, picks, t - 1);
      assert EffectAt(all, w, n, CreditsOf(states), picks, t - 1);
    }
  }

  // ------------------------------------------------------------------ quota

  /** Every call picks a listed server: the sentinel needs no bound on the weights here. */
  lemma AlwaysPicks(list: seq<Url>, states: seq<State>, picks: seq<Url>, t: nat)
    requires FreshRun(list, states, picks) && t < |picks|
    ensures picks[t] in list
  {
    RunFollows(list, states, picks, t + 1);
    assert EffectAt(SetOf(list), Runs.Weights(states[0], SetOf(list)), Total(states[0], list), CreditsOf(states), picks, t);
  }

  /** After t calls a server's credit is t * w - W * picks, and above -W. */
  lemma CreditOverTime(list: seq<Url>, states: seq<State>, picks: seq<Url>, t: nat, u: Url, w: int, n: int)
    requires FreshRun(list, states, picks) && t <= |picks| && u in list
    requires w == WeightOf(states[0], u) && n == Total(states[0], list)
    ensures 1 <= n
    ensures At(states[t].credit, u) == t * w - n * Count(picks, 0, t, u)
    ensures -n < At(states[t].credit, u)
  {
    var all, ws := SetOf(list), Runs.Weights(states[0], SetOf(list));
    TotalFacts(states[0], list);
    RunFollows(list, states, picks, t);
    StaysAbove(all, ws, n, CreditsOf(states), picks, t, u);
    CreditFormula(all, ws, n, CreditsOf(states), picks, t, u, w);
  }

  /** Prefix quota: among any first t picks no server has more than ceil(t * w / W). */
  lemma PrefixQuota(list: seq<Url>, states: seq<State>, picks: seq<Url>, t: nat, u: Url, w: int, n: int)
    requires FreshRun(list, states, picks) && t <= |picks| && u in list
    requires w == WeightOf(states[0], u) && n == Total(states[0], list)
    ensures 1 <= n
    ensures Count(picks, 0, t, u) <= (t * w + n - 1) / n
  {
    CreditOverTime(list, states, picks, t, u, w, n);
    BelowCeiling(Count(picks, 0, t, u), t, w, n, At(states[t].credit, u));
  }

  // ------------------------------------------------------------------ period

  /** The same weight and credit for every server. */
  ghost predicate Agree(s: State, r: State) {
    forall u :: WeightOf(s, u) == WeightOf(r, u) && At(s.credit, u) == At(r.credit, u)
  }

  lemma {:induction false} SameBest(s: State, r: State, list: seq<Url>, n: nat)
    requires Agree(s, r) && n <= |list|
    ensures Best(s, list, n) == Best(r, list, n)
  {
    if n != 0 {
      SameBest(s, r, list, n - 1);
      SameGain(s, r, list, n, list[n - 1]);
      var k := Best(s, list, n - 1);
      if k != -1 {
        SameGain(s, r, list, k + 1, list[k]);
      }
    }
  }

  lemma {:induction false} SameGain(s: State, r: State, list: seq<Url>, n: nat, u: Url)
    requires Agree(s, r) && n <= |list|
    ensures Gain(s, list, n, u) == Gain(r, list, n, u)
  {
    if n != 0 {
      SameGain(s, r, list, n - 1, u);
    }
  }

  /** Selections do not tell agreeing states apart. */
  lemma StepAgrees(s: State, r: State, list: seq<Url>)
    requires Sound(s) && Sound(r) && Agree(s, r) && Distinct(list)
    ensures Pick(s, list) == Pick(r, list)
    ensures Agree(Step(s, list), Step(r, list))
  {
    SameBest(s, r, list, |list|);
    SameTotal(s, r, list, |list|);
    StepSound(s, list);
    StepSound(r, list);
    forall u
      ensures At(Step(s, list).credit, u) == At(Step(r, list).credit, u)
    {
      StepOnDistinct(s, list, u);
      StepOnDistinct(r, list, u);
    }
  }

  lemma {:induction false} OthersKeepCredit(list: seq<Url>, states: seq<State>, picks: seq<Url>, t: nat, u: Url)
    requires FreshRun(list, states, picks) && t <= |picks| && u !in list
    ensures At(states[t].credit, u) == At(states[0].credit, u)
  {
    if t != 0 {
      OthersKeepCredit(list, states, picks, t - 1, u);
      RunSound(list, states, picks, t - 1);
      AlwaysPicks(list, states, picks, t - 1);
      assert CallAt(list, states, picks, t - 1);
      StepOnDistinct(states[t - 1], list, u);
    }
  }

  /** After W calls every credit is back where it was. */
  lemma BackToStart(list: seq<Url>, states: seq<State>, picks: seq<Url>, n: nat)
    requires FreshRun(list, states, picks) && n == Total(states[0], list) && n <= |picks|
    ensures Agree(states[n], states[0])
  {
    TotalFacts(states[0], list);
    RunSound(list, states, picks, n);
    RunFollows(list, states, picks, n);
    forall u
      ensures At(states[n].credit, u) == At(states[0].credit, u)
    {
      if u in list {
        FullPeriod(SetOf(list), Runs.Weights(states[0], SetOf(list)), n, CreditsOf(states), picks, u);
      } else {
        OthersKeepCredit(list, states, picks, n, u);
      }
    }
  }

  lemma NextAgrees(list: seq<Url>, states: seq<State>, picks: seq<Url>, i: nat, j: nat)
    requires IsRun(list, states, picks) && i < |picks| && j < |picks| && Agree(states[i], states[j])
    ensures picks[i] == picks[j]
    ensures Agree(states[i + 1], states[j + 1])
  {
    RunSound(list, states, picks, i);
    RunSound(list, states, picks, j);
    StepAgrees(states[i], states[j], list);
    assert CallAt(list, states, picks, i) && CallAt(list, states, picks, j);
  }

  /** Credits and schedule repeat with period W. */
  lemma {:induction false} Periodic(list: seq<Url>, states: seq<State>, picks: seq<Url>, n: nat, t: nat)
    requires FreshRun(list, states, picks) && n == Total(states[0], list) && t + n <= |picks|
    ensures Agree(states[t + n], states[t])
    ensures t + n < |picks| ==> picks[t + n] == picks[t]
  {
    if t == 0 {
      BackToStart(list, states, picks, n);
    } else {
      Periodic(list, states, picks, n, t - 1);
      NextAgrees(list, states, picks, t - 1 + n, t - 1);
    }
    if t + n < |picks| {
      TotalFacts(states[0], list);
      NextAgrees(list, states, picks, t + n, t);
    }
  }

  /** Exactness: any W consecutive picks, starting anywhere in the run, name each server exactly as often as
      its weight says. */
  lemma WindowExact(list: seq<Url>, states: seq<State>, picks: seq<Url>, n: nat, from: nat, u: Url)
    requires FreshRun(list, states, picks) && n == Total(states[0], list) && from + n <= |picks| && u in list
    ensures 1 <= n
    ensures Count(picks, from, from + n, u) == WeightOf(states[0], u)
  {
    var w := WeightOf(states[0], u);
    Periodic(list, states, picks, n, from);
    CreditOverTime(list, states, picks, from, u, w, n);
    CreditOverTime(list, states, picks, from + n, u, w, n);
    CountSplit(picks, from, from + n, u);
    SameDebt(from, n, w, Count(picks, 0, from, u), Count(picks, from, from + n, u), Count(picks, 0, from + n, u),
             At(states[from].credit, u));
  }

  lemma SameDebt(from: int, n: int, w: int, p: int, q: int, both: int, c: int)
    requires 1 <= n && both == p + q
    requires c == (from + n) * w - n * both && c == from * w - n * p
    ensures q == w
  {
    assert (from + n) * w == from * w + n * w;
    assert n * (p + q) == n * p + n * q;
    assert n * (w - q) == 0;
  }

  // ------------------------------------------------------------------ the same about runs of calls

  function Repeat(list: seq<Url>, t: nat): (calls: seq<seq<Url>>)
    ensures |calls| == t && forall i :: 0 <= i < t ==> calls[i] == list
  {
    seq(t, _ => list)
  }

  /** Offering the same list on every call of a run gives a run of this kind. */
  lemma FixedCallsAreARun(s: State, list: seq<Url>, t: nat) returns (states: seq<State>, picks: seq<Url>)
    requires Runs.Initial(s) && Runs.ProperCall(list, SetOf(list))
    ensures FreshRun(list, states, picks) && |picks| == t
    ensures forall i :: 0 <= i <= t ==> states[i] == Runs.After(s, Repeat(list, i))
    ensures forall i :: 0 <= i < t ==> picks[i] == Runs.PickAt(s, Repeat(list, t), i)
  {
    states := seq(t + 1, i requires 0 <= i <= t => Runs.After(s, Repeat(list, i)));
    picks := seq(t, i requires 0 <= i < t => Pick(Runs.After(s, Repeat(list, i)), list));
    forall i | 0 <= i < t
      ensures CallAt(list, states, picks, i) && picks[i] == Runs.PickAt(s, Repeat(list, t), i)
    {
      assert Repeat(list, i + 1)[..i] == Repeat(list, i);
      assert Repeat(list, t)[..i] == Repeat(list, i);
    }
    assert states[0] == Runs.After(s, []);
  }

  /** How often `u` is returned by the calls from..until - 1 of a run. */
  function Returned(s: State, calls: seq<seq<Url>>, from: nat, until: nat, u: Url): nat
    requires from <= until <= |calls|
    decreases until
  {
    if from == until then 0
    else Returned(s, calls, from, until - 1, u) + (if Runs.PickAt(s, calls, until - 1) == u then 1 else 0)
  }

  lemma {:induction false} ReturnedIsCount(s: State, calls: seq<seq<Url>>, picks: seq<Url>, from: nat, until: nat, u: Url)
    requires from <= until <= |calls| == |picks|
    requires forall i :: 0 <= i < |picks| ==> picks[i] == Runs.PickAt(s, calls, i)
    ensures Returned(s, calls, from, until, u) == Count(picks, from, until, u)
  {
    if from != until {
      ReturnedIsCount(s, calls, picks, from, until - 1, u);
    }
  }

  /** Exactness as a statement about runs of calls: with the same list on every call, any W consecutive calls
      return each server exactly as often as its weight says. */
  lemma FixedCallsExact(s: State, list: seq<Url>, n: nat, from: nat, u: Url)
    requires Runs.Initial(s) && Runs.ProperCall(list, SetOf(list)) && n == Total(s, list) && u in list
    ensures Returned(s, Repeat(list, from + n), from, from + n, u) == WeightOf(s, u)
  {
    var states, picks := FixedCallsAreARun(s, list, from + n);
    assert states[0] == Runs.After(s, []);
    WindowExact(list, states, picks, n, from, u);
    ReturnedIsCount(s, Repeat(list, from + n), picks, from, from + n, u);
  }
}
