/** The running mean and variance of a series of readings, over exact numbers (src/profiler/welford.h). */
module Welford {

  /** What one of the pointers points to. */
  class Cell {
    var value: real

    constructor (v: real)
      ensures value == v
    {
      value := v;
    }
  }

  function Sum(x: seq<real>): real {
    if x == [] then 0.0 else Sum(x[..|x| - 1]) + x[|x| - 1]
  }

  function Mean(x: seq<real>): real
    requires x != []
  {
    Sum(x) / |x| as real
  }

  function Square(a: real): real {
    a * a
  }

  /** The sum of the squared deviations from `m`. */
  function Squares(x: seq<real>, m: real): real {
    if x == [] then 0.0 else Squares(x[..|x| - 1], m) + Square(x[|x| - 1] - m)
  }

  /** Mean, sum of squared deviations and variance of the readings so far. */
  ghost predicate Summarizes(x: seq<real>, mean: real, variance: real, m2: real) {
    && x != [] && mean == Mean(x) && m2 == Squares(x, Mean(x))
    && (if |x| == 1 then variance == 0.0 else variance == m2 / (|x| - 1) as real)
  }

  /** One reading. Below the second sample the statistics start again. */
  method UpdateVarianceAndMean(sampleNum: nat, newValue: nat, mean: Cell, variance: Cell, m2: Cell, ghost x: seq<real>)
    requires mean != variance && mean != m2 && variance != m2
    requires sampleNum == |x| + 1
    requires x != [] ==> Summarizes(x, mean.value, variance.value, m2.value)
    modifies mean, variance, m2
    ensures Summarizes(x + [newValue as real], mean.value, variance.value, m2.value)
  {
    var v := newValue as real;
    if sampleNum < 2 {
      mean.value := v;
      variance.value := 0.0;
      m2.value := 0.0;
      FirstReading(v);
      assert x + [v] == [v];
    } else {
      var delta := v - mean.value;
      mean.value := mean.value + delta / sampleNum as real;
      var delta2 := v - mean.value;
      m2.value := m2.value + delta * delta2;
      variance.value := m2.value / (sampleNum - 1) as real;
      NextReading(x, v);
    }
  }

  lemma FirstReading(v: real)
    ensures Mean([v]) == v && Squares([v], v) == 0.0
  {
    assert [v][..0] == [];
    assert Sum([v]) == v && |[v]| as real == 1.0;
  }

  lemma SumSnoc(x: seq<real>, v: real, m: real)
    ensures Sum(x + [v]) == Sum(x) + v && Squares(x + [v], m) == Squares(x, m) + Square(v - m)
  {
    assert (x + [v])[..|x|] == x;
  }

  function Times(a: real, b: real): real {
    a * b
  }

  lemma Expand(t: real, b: real, d: real)
    ensures Square(t - (b + d)) == Square(t - b) - Times(2.0 * d, t - b) + Square(d)
  {
  }

  /** Deviations from another point. */
  lemma {:induction false} Shift(x: seq<real>, b: real, d: real)
    ensures Squares(x, b + d) ==
            Squares(x, b) - Times(2.0 * d, Sum(x) - Times(|x| as real, b)) + Times(|x| as real, Square(d))
  {
    if x == [] {
      NoTerms(d, b);
    } else {
      var n := |x| - 1;
      var y, t := x[..n], x[n];
      assert Squares(x, b + d) == Squares(y, b + d) + Square(t - (b + d));
      assert Squares(x, b) == Squares(y, b) + Square(t - b) && Sum(x) == Sum(y) + t;
      assert |x| as real == n as real + 1.0;
      hide *;
      Shift(y, b, d);
      Expand(t, b, d);
      OneTerm(Sum(y), t, n as real, b, d, Square(d));
    }
  }

  lemma NoTerms(d: real, b: real)
    ensures Times(2.0 * d, 0.0 - Times(0.0, b)) == 0.0 && Times(0.0, Square(d)) == 0.0
  {
  }

  lemma OneTerm(s: real, t: real, n: real, b: real, d: real, q: real)
    ensures Times(2.0 * d, s + t - Times(n + 1.0, b)) == Times(2.0 * d, s - Times(n, b)) + Times(2.0 * d, t - b)
    ensures Times(n + 1.0, q) == Times(n, q) + q
  {
    assert (n + 1.0) * b == n * b + b;
  }

  lemma ShiftFromMean(x: seq<real>, d: real)
    requires x != []
    ensures Squares(x, Mean(x) + d) == Squares(x, Mean(x)) + Times(|x| as real, Square(d))
  {
    assert Times(|x| as real, Mean(x)) == Sum(x);
    assert Times(2.0 * d, 0.0) == 0.0;
    hide *;
    Shift(x, Mean(x), d);
  }

  lemma MeanStep(x: seq<real>, v: real)
    requires x != []
    ensures Mean(x + [v]) == Mean(x) + (v - Mean(x)) / (|x| as real + 1.0)
  {
    SumSnoc(x, v, 0.0);
    assert Mean(x) * |x| as real == Sum(x) && |x + [v]| as real == |x| as real + 1.0;
    NewMean(Sum(x), v, Mean(x), |x| as real);
  }

  /** The step of the algorithm: mean and squares of one more reading from those before. */
  lemma NextReading(x: seq<real>, v: real)
    requires x != []
    ensures var m, n := Mean(x), |x| as real + 1.0; var m' := m + (v - m) / n;
            Mean(x + [v]) == m' && Squares(x + [v], m') == Squares(x, m) + Times(v - m, v - m')
  {
    hide *;
    var m, k := Mean(x), |x| as real;
    var d := (v - m) / (k + 1.0);
    MeanStep(x, v);
    SumSnoc(x, v, m + d);
    ShiftFromMean(x, d);
    SquaresStep(v, m, k, d);
  }

  lemma NewMean(s: real, v: real, m: real, k: real)
    requires k > 0.0 && m * k == s
    ensures (s + v) / (k + 1.0) == m + (v - m) / (k + 1.0)
  {
    var n := k + 1.0;
    assert s + v == m * n + (v - m);
  }

  lemma SquaresStep(v: real, m: real, k: real, d: real)
    requires k > 0.0 && d == (v - m) / (k + 1.0)
    ensures Times(k, Square(d)) + Square(v - (m + d)) == Times(v - m, v - (m + d))
  {
    var e := v - m;
    assert e == d * (k + 1.0);
    assert v - (m + d) == k * d;
    calc {
      k * (d * d) + (k * d) * (k * d);
      (k * d) * (d + k * d);
      (k * d) * (d * (k + 1.0));
      (k * d) * e;
    }
  }

  // ----- Any order of the readings gives the same statistics

  lemma {:induction false} Without(x: seq<real>, i: nat, m: real)
    requires i < |x|
    ensures var r := x[..i] + x[i + 1..];
            Sum(x) == Sum(r) + x[i] && Squares(x, m) == Squares(r, m) + Square(x[i] - m)
  {
    var n := |x| - 1;
    var r := x[..i] + x[i + 1..];
    if i == n {
      assert r == x[..n];
    } else {
      Without(x[..n], i, m);
      assert r == x[..n][..i] + x[..n][i + 1..] + [x[n]];
      SumSnoc(x[..n][..i] + x[..n][i + 1..], x[n], m);
    }
  }

  lemma {:induction false} SameReadings(x: seq<real>, y: seq<real>, m: real)
    requires multiset(x) == multiset(y)
    ensures |x| == |y| && Sum(x) == Sum(y) && Squares(x, m) == Squares(y, m)
  {
    assert |multiset(x)| == |x| && |multiset(y)| == |y|;
    if x != [] {
      var n := |x| - 1;
      assert x[n] in multiset(y);
      var i :| 0 <= i < |y| && y[i] == x[n];
      var r := y[..i] + y[i + 1..];
      Taken(x, n);
      Taken(y, i);
      assert x[..n] + x[n + 1..] == x[..n];
      Cancel(multiset(x[..n]), multiset(r), x[n]);
      SameReadings(x[..n], r, m);
      Without(y, i, m);
    }
  }

  lemma Taken(x: seq<real>, i: nat)
    requires i < |x|
    ensures multiset(x) == multiset(x[..i] + x[i + 1..]) + multiset{x[i]}
  {
    assert x == x[..i] + [x[i]] + x[i + 1..];
  }

  lemma Cancel(a: multiset<real>, b: multiset<real>, v: real)
    requires a + multiset{v} == b + multiset{v}
    ensures a == b
  {
    assert a == a + multiset{v} - multiset{v};
    assert b == b + multiset{v} - multiset{v};
  }

  lemma OrderIrrelevant(x: seq<real>, y: seq<real>, mean: real, variance: real, m2: real)
    requires multiset(x) == multiset(y)
    ensures Summarizes(x, mean, variance, m2) <==> Summarizes(y, mean, variance, m2)
  {
    SameReadings(x, y, 0.0);
    if x != [] { SameReadings(x, y, Mean(x)); }
  }
}
