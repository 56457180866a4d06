/** The sentinel with two servers: exactly when a selection can come back empty-handed. */
module SwrrSentinel {
  import opened Sums
  import opened Swrr
  import opened SwrrFairness

  // ------------------------------------------------------------------ greatest common divisors

  function Gcd(a: int, b: int): (g: int)
    requires 1 <= a && 1 <= b
    ensures 1 <= g
    decreases a + b
  {
    if a == b then a else if a > b then Gcd(a - b, b) else Gcd(a, b - a)
  }

  lemma {:induction false} GcdDivides(a: int, b: int) returns (k: int, l: int)
    requires 1 <= a && 1 <= b
    ensures a == Gcd(a, b) * k && b == Gcd(a, b) * l
    decreases a + b
  {
    if a == b {
      k, l := 1, 1;
    } else if a > b {
      k, l := GcdDivides(a - b, b);
      assert Gcd(a, b) * (k + l) == Gcd(a, b) * k + Gcd(a, b) * l;
      k := k + l;
    } else {
      k, l := GcdDivides(a, b - a);
      assert Gcd(a, b) * (k + l) == Gcd(a, b) * k + Gcd(a, b) * l;
      l := k + l;
    }
  }

  lemma Distribute(k: int, j: int, a: int, b: int)
    ensures k * (a - b) - j * b == k * a - (k + j) * b
  {
    assert k * (a - b) == k * a - k * b;
    assert (k + j) * b == k * b + j * b;
  }

  lemma {:induction false} GcdCombines(a: int, b: int) returns (k: nat, j: nat)
    requires 1 <= a && 1 <= b
    ensures k * a - j * b == Gcd(a, b)
    decreases a + b
  {
    if a == b {
      k, j := 1, 0;
    } else if a > b {
      k, j := GcdCombines(a - b, b);
      Distribute(k, j, a, b);
      j := k + j;
    } else {
      k, j := GcdCombines(a, b - a);
      Distribute(j, k, b, a);
      k := k + j;
    }
  }

  ghost predicate Multiple(x: int, g: int) {
    exists k :: Times(g, k) == x
  }

  function Times(g: int, k: int): int {
    g * k
  }

  lemma MultiplesAdd(x: int, y: int, g: int)
    requires Multiple(x, g) && Multiple(y, g)
    ensures Multiple(x + y, g) && Multiple(x - y, g) && Multiple(-x, g)
  {
    var k :| Times(g, k) == x;
    var l :| Times(g, l) == y;
    assert Times(g, k + l) == x + y && Times(g, k - l) == x - y && Times(g, -k) == -x;
  }

  /** The largest multiple of g that is at most half of w. */
  function HalfIn(g: int, w: int): int
    requires 1 <= g && 0 <= w
  {
    Times(g, w / (2 * g))
  }

  lemma DivideTwice(g: int, w: int, m: int)
    requires 1 <= g && 0 <= w && m == w / (2 * g)
    ensures 0 <= m && 2 * Times(g, m) <= w < 2 * Times(g, m) + 2 * g
  {
    Quotient(2 * g, w, m);
    assert (2 * g) * m == 2 * (g * m);
  }

  lemma Quotient(d: int, w: int, m: int)
    requires 1 <= d && 0 <= w && m == w / d
    ensures 0 <= m && d * m <= w < d * m + d
  {
    assert w == d * m + w % d;
  }

  lemma TimesMonotone(g: int, k: int, m: int)
    requires 1 <= g && k <= m
    ensures Times(g, k) <= Times(g, m) && Times(g, m + 1) == Times(g, m) + g
  {
    assert 0 <= g * (m - k);
    assert g * (m - k) == g * m - g * k;
  }

  lemma HalfBounds(g: int, w: int, x: int)
    requires 1 <= g && 0 <= w && Multiple(x, g) && 2 * x <= w
    ensures x <= HalfIn(g, w) && 0 <= 2 * HalfIn(g, w) <= w
  {
    var m := w / (2 * g);
    var k :| Times(g, k) == x;
    DivideTwice(g, w, m);
    TimesMonotone(g, 0, m);
    assert Times(g, 0) == 0;
    if k <= m {
      TimesMonotone(g, k, m);
    } else {
      TimesMonotone(g, m + 1, k);
      TimesMonotone(g, m, m);
    }
  }

  /** The largest multiple of the greatest common divisor that is at most half of the combined weight. */
  function Peak(a: int, b: int): int
    requires 1 <= a && 1 <= b
  {
    HalfIn(Gcd(a, b), a + b)
  }

  // ------------------------------------------------------------------ the credits of two servers

  /** The credits are opposite, at most half of the combined weight, and multiples of g. */
  ghost predicate Opposed(s: State, a: Url, b: Url, wa: int, wb: int, g: int, x: int) {
    && Sound(s) && WeightOf(s, a) == wa && WeightOf(s, b) == wb && 1 <= wa && 1 <= wb
    && At(s.credit, a) == x && At(s.credit, b) == -x
    && -(wa + wb) <= 2 * x <= wa + wb
    && Multiple(x, g)
  }

  lemma TotalOfTwo(s: State, call: seq<Url>, a: Url, b: Url)
    requires ProperCall(call, {a, b}) && a != b
    ensures SetOf(call) == {a} || SetOf(call) == {b} || SetOf(call) == {a, b}
    ensures SetOf(call) == {a} ==> Total(s, call) == WeightOf(s, a)
    ensures SetOf(call) == {b} ==> Total(s, call) == WeightOf(s, b)
    ensures SetOf(call) == {a, b} ==> Total(s, call) == WeightOf(s, a) + WeightOf(s, b)
  {
    var w := Weights(s, {a, b});
    TotalOfCall(s, s, call, {a, b});
    assert call[0] in SetOf(call);
    if a in SetOf(call) && b in SetOf(call) {
      SumRemove(w, {a, b}, a);
      assert {a, b} - {a} == {b};
    }
    SumOfOne(w, a);
    SumOfOne(w, b);
  }

  lemma SumOfOne(w: map<Url, int>, u: Url)
    ensures Sum(w, {u}) == At(w, u)
  {
    SumRemove(w, {u}, u);
    assert {u} - {u} == {};
  }

  /** A call that offers both is always served; a call that offers one is not exactly when that server's
      topped-up credit is at the sentinel or below. */
  lemma WhenServed(s: State, call: seq<Url>, a: Url, b: Url, wa: int, wb: int, g: int, x: int)
    requires ProperCall(call, {a, b}) && a != b && Opposed(s, a, b, wa, wb, g, x)
    ensures Pick(s, call) == "" <==>
              || (SetOf(call) == {a} && x + wa <= SENTINEL)
              || (SetOf(call) == {b} && -x + wb <= SENTINEL)
  {
    PickIsLargest(s, call);
    TotalOfTwo(s, call, a, b);
    InCall(call, a, b);
  }

  lemma InCall(call: seq<Url>, a: Url, b: Url)
    requires ProperCall(call, {a, b}) && a != b
    ensures SetOf(call) == {a, b} <==> a in call && b in call
    ensures SetOf(call) == {a} <==> a in call && b !in call
    ensures SetOf(call) == {b} <==> b in call && a !in call
    ensures forall u :: u in call ==> u == a || u == b
  {
    assert call[0] in SetOf(call);
    forall u
      ensures u in call <==> u in SetOf(call)
    {
    }
    assert a in call && b in call ==> SetOf(call) == {a, b};
    assert a in call && b !in call ==> SetOf(call) == {a};
    assert b in call && a !in call ==> SetOf(call) == {b};
  }

  /** What a served call does to the two credits. */
  lemma ServedCredits(s: State, call: seq<Url>, a: Url, b: Url, wa: int, wb: int, g: int, x: int) returns (y: int)
    requires ProperCall(call, {a, b}) && a != b && Opposed(s, a, b, wa, wb, g, x) && Pick(s, call) != ""
    ensures At(Step(s, call).credit, a) == y && At(Step(s, call).credit, b) == -y
    ensures y == x || (y == x - wb && 2 * x >= wb - wa) || (y == x + wa && 2 * x <= wb - wa)
  {
    PickIsLargest(s, call);
    TotalOfTwo(s, call, a, b);
    InCall(call, a, b);
    StepOnDistinct(s, call, a);
    StepOnDistinct(s, call, b);
    assert Pick(s, call) in call;
    y := if SetOf(call) != {a, b} then x else if Pick(s, call) == a then x - wb else x + wa;
  }

  /** A served call keeps the credits opposed. */
  lemma ServedStaysOpposed(s: State, call: seq<Url>, a: Url, b: Url, wa: int, wb: int, g: int, x: int)
    returns (y: int)
    requires ProperCall(call, {a, b}) && a != b && Opposed(s, a, b, wa, wb, g, x) && Pick(s, call) != ""
    requires Multiple(wa, g) && Multiple(wb, g)
    ensures Opposed(Step(s, call), a, b, wa, wb, g, y)
  {
    StepSound(s, call);
    y := ServedCredits(s, call, a, b, wa, wb, g, x);
    MultiplesAdd(x, wa, g);
    MultiplesAdd(x, wb, g);
  }

  // ------------------------------------------------------------------ below the threshold

  lemma {:induction false} ServedBelow(s: State, calls: seq<seq<Url>>, a: Url, b: Url, wa: int, wb: int, g: int)
    returns (x: int)
    requires Initial(s) && Proper(calls, {a, b}) && a != b
    requires wa == WeightOf(s, a) && wb == WeightOf(s, b) && 1 <= wa && 1 <= wb
    requires 1 <= g && Multiple(wa, g) && Multiple(wb, g)
    requires HalfIn(g, wa + wb) - wa < -SENTINEL && HalfIn(g, wa + wb) - wb < -SENTINEL
    ensures AllServed(s, calls)
    ensures Opposed(After(s, calls), a, b, wa, wb, g, x)
  {
    if calls == [] {
      assert Times(g, 0) == 0;
      x := 0;
    } else {
      var front, last := calls[..|calls| - 1], calls[|calls| - 1];
      var y := ServedBelow(s, front, a, b, wa, wb, g);
      var now := After(s, front);
      MultiplesAdd(y, y, g);
      HalfBounds(g, wa + wb, y);
      HalfBounds(g, wa + wb, -y);
      WhenServed(now, last, a, b, wa, wb, g, y);
      x := ServedStaysOpposed(now, last, a, b, wa, wb, g, y);
      AllServedPrefix(s, calls);
    }
  }

  // ------------------------------------------------------------------ at the threshold

  /** After t calls that offer both, `a` first: its credit lies in the half-open range around 0, and is
      t * wa - W * p. */
  ghost predicate Rotated(s: State, a: Url, b: Url, wa: int, wb: int, t: int, p: int) {
    && Sound(s) && WeightOf(s, a) == wa && WeightOf(s, b) == wb
    && At(s.credit, b) == -At(s.credit, a)
    && -(wa + wb) <= 2 * At(s.credit, a) < wa + wb
    && At(s.credit, a) == Times(t, wa) - Times(wa + wb, p)
  }

  lemma TimesNext(t: int, w: int)
    ensures Times(t + 1, w) == Times(t, w) + w && Times(w, t + 1) == Times(w, t) + w
  {
  }

  lemma RotateOnce(s: State, a: Url, b: Url, wa: int, wb: int, t: int, p: int) returns (q: int)
    requires Rotated(s, a, b, wa, wb, t, p) && a != b && a != "" && b != "" && 1 <= wa && 1 <= wb
    ensures Rotated(Step(s, [a, b]), a, b, wa, wb, t + 1, q)
  {
    StepSound(s, [a, b]);
    TimesNext(t, wa);
    TimesNext(p, wa + wb);
    if 2 * At(s.credit, a) >= wb - wa {
      SmallStep(s, a, b, a);
      SmallStep(s, a, b, b);
      q := p + 1;
    } else {
      SecondStep(s, a, b, a);
      SecondStep(s, a, b, b);
      q := p;
    }
  }

  /** A selection between two candidates of which the second is ahead. */
  lemma SecondStep(s: State, a: Url, b: Url, u: Url)
    requires Sound(s) && a != b && a != "" && b != ""
    requires SENTINEL < At(s.credit, b) + WeightOf(s, b)
    requires At(s.credit, a) + WeightOf(s, a) < At(s.credit, b) + WeightOf(s, b)
    ensures At(Step(s, [a, b]).credit, u)
         == At(s.credit, u) + (if u == a then WeightOf(s, a) else 0) - (if u == b then WeightOf(s, a) else 0)
  {
    RunningOnce(s, [a, b], 0);
    RunningOnce(s, [a, b], 1);
    assert Best(s, [a, b], 1) <= 0;
    assert Best(s, [a, b], 2) == 1;
    assert TotalUpTo(s, [a, b], 1) == WeightOf(s, a);
    StepOnDistinct(s, [a, b], u);
  }

  function Both(a: Url, b: Url, t: nat): (calls: seq<seq<Url>>)
    ensures |calls| == t
  {
    if t == 0 then [] else Both(a, b, t - 1) + [[a, b]]
  }

  lemma {:induction false} RotatedAfter(s: State, a: Url, b: Url, wa: int, wb: int, t: nat) returns (p: int)
    requires Initial(s) && a != b && a != "" && b != ""
    requires wa == WeightOf(s, a) && wb == WeightOf(s, b) && 1 <= wa && 1 <= wb
    ensures Rotated(After(s, Both(a, b, t)), a, b, wa, wb, t, p)
  {
    if t == 0 {
      p := 0;
    } else {
      var q := RotatedAfter(s, a, b, wa, wb, t - 1);
      assert Both(a, b, t)[..t - 1] == Both(a, b, t - 1);
      p := RotateOnce(After(s, Both(a, b, t - 1)), a, b, wa, wb, t - 1, q);
    }
  }

  lemma {:induction false} BothProper(a: Url, b: Url, t: nat)
    requires a != b && a != "" && b != ""
    ensures Proper(Both(a, b, t), {a, b})
  {
    if t != 0 {
      BothProper(a, b, t - 1);
      PairIsProper(a, b, {a, b});
    }
  }

  /** Some number of steps of size a around a circle of a + b leads to -m * (k * a - j * b). */
  lemma CircleReaches(a: int, b: int, m: nat, k: nat, j: nat) returns (t: nat, q: int)
    requires 1 <= a && 1 <= b
    ensures Times(t, a) - Times(a + b, q) == -(m * (k * a - j * b))
  {
    var n, w := m * (k + j), a + b;
    NonNegative(m, k + j);
    NonNegative(w - 1, n);
    t, q := (w - 1) * n, n * a - m * j;
    assert ((w - 1) * n) * a == w * (n * a) - n * a;
    assert w * (n * a - m * j) == w * (n * a) - w * (m * j);
    CircleSum(a, b, m, k, j);
  }

  lemma NonNegative(x: int, y: int)
    requires 0 <= x && 0 <= y
    ensures 0 <= x * y
  {
  }

  lemma CircleSum(a: int, b: int, m: int, k: int, j: int)
    ensures (a + b) * (m * j) - (m * (k + j)) * a == -(m * (k * a - j * b))
  {
    assert (m * (k + j)) * a == m * (k * a) + m * (j * a);
    assert (a + b) * (m * j) == m * (j * a) + m * (j * b);
    assert m * (k * a - j * b) == m * (k * a) - m * (j * b);
  }

  lemma PeakIsReached(a: int, b: int) returns (t: nat, q: int)
    requires 1 <= a && 1 <= b
    ensures Times(t, a) - Times(a + b, q) == -Peak(a, b)
  {
    var g := Gcd(a, b);
    var k, j := GcdCombines(a, b);
    DivideTwice(g, a + b, (a + b) / (2 * g));
    t, q := CircleReaches(a, b, (a + b) / (2 * g), k, j);
    Commuted(g, (a + b) / (2 * g));
  }

  lemma Commuted(g: int, m: int)
    ensures m * g == Times(g, m)
  {
  }

  /** Two numbers in the same half-open range that differ by whole turns are equal. */
  lemma SamePlace(x: int, y: int, w: int, p: int, q: int)
    requires 1 <= w && -w <= 2 * x < w && -w <= 2 * y < w && x - y == Times(w, q) - Times(w, p)
    ensures x == y
  {
    if p < q {
      TimesMonotone(w, p + 1, q);
      TimesMonotone(w, p, p);
    } else if q < p {
      TimesMonotone(w, q + 1, p);
      TimesMonotone(w, q, q);
    }
  }

  /** At the threshold the lighter server, driven to minus the peak and then offered alone, is not served. */
  lemma UnservedAt(s: State, a: Url, b: Url) returns (calls: seq<seq<Url>>)
    requires Initial(s) && a != b && a != "" && b != ""
    requires Peak(WeightOf(s, a), WeightOf(s, b)) - WeightOf(s, a) >= -SENTINEL
    ensures Proper(calls, {a, b}) && !AllServed(s, calls)
  {
    var wa, wb := WeightOf(s, a), WeightOf(s, b);
    var t, q := PeakIsReached(wa, wb);
    var p := RotatedAfter(s, a, b, wa, wb, t);
    var now := After(s, Both(a, b, t));
    PeakInRange(wa, wb);
    SamePlace(At(now.credit, a), -Peak(wa, wb), wa + wb, p, q);
    calls := Both(a, b, t) + [[a]];
    BothProper(a, b, t);
    PairIsProper(a, b, {a, b});
    OneMoreCall(s, Both(a, b, t), [a]);
    PickIsLargest(now, [a]);
  }

  lemma PeakInRange(a: int, b: int)
    requires 1 <= a && 1 <= b
    ensures 0 <= 2 * Peak(a, b) <= a + b
  {
    assert Times(Gcd(a, b), 0) == 0;
    HalfBounds(Gcd(a, b), a + b, 0);
  }

  lemma OneMoreCall(s: State, calls: seq<seq<Url>>, call: seq<Url>)
    ensures AllServed(s, calls + [call]) ==> Pick(After(s, calls), call) != ""
  {
    assert (calls + [call])[..|calls|] == calls;
    assert AllServed(s, calls + [call]) ==> PickAt(s, calls + [call], |calls|) != "";
  }

  // ------------------------------------------------------------------ exactly then

  /** With two servers every call of every run is served if and only if the peak exceeds the lighter weight by
      less than 2^30. */
  lemma TwoServersExactly(s: State, a: Url, b: Url)
    requires Initial(s) && a != b && a != "" && b != ""
    ensures var wa, wb := WeightOf(s, a), WeightOf(s, b);
            (forall calls :: Proper(calls, {a, b}) ==> AllServed(s, calls))
            <==> Peak(wa, wb) - (if wa <= wb then wa else wb) < -SENTINEL
  {
    var wa, wb := WeightOf(s, a), WeightOf(s, b);
    GcdSymmetric(wa, wb);
    var k, l := GcdDivides(wa, wb);
    assert Times(Gcd(wa, wb), k) == wa && Times(Gcd(wa, wb), l) == wb;
    if Peak(wa, wb) - (if wa <= wb then wa else wb) < -SENTINEL {
      forall calls | Proper(calls, {a, b})
        ensures AllServed(s, calls)
      {
        var x := ServedBelow(s, calls, a, b, wa, wb, Gcd(wa, wb));
      }
    } else if wa <= wb {
      var calls := UnservedAt(s, a, b);
    } else {
      var calls := UnservedAt(s, b, a);
      assert {a, b} == {b, a};
    }
  }

  lemma {:induction false} GcdSymmetric(a: int, b: int)
    requires 1 <= a && 1 <= b
    ensures Gcd(a, b) == Gcd(b, a)
    decreases a + b
  {
    if a > b {
      GcdSymmetric(a - b, b);
    } else if a < b {
      GcdSymmetric(a, b - a);
    }
  }

  /** A single server is always served, whatever its weight. */
  lemma {:induction false} OneServerAlways(s: State, calls: seq<seq<Url>>, a: Url)
    requires Initial(s) && Proper(calls, {a})
    ensures AllServed(s, calls)
  {
    SentinelSound(s, calls, {a});
  }
}
