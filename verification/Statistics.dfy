// Sums, sorting and dispersion of finite samples.
module Statistics {
  import opened Prelude

  function Sum(xs: seq<real>): real {
    if xs == [] then 0.0 else Sum(xs[..|xs| - 1]) + xs[|xs| - 1]
  }

  // A product by name, which can be hidden where its value does not matter.
  function Times(a: real, b: real): real {
    a * b
  }

  function Square(x: real): (y: real)
    ensures y >= 0.0
  {
    Times(x, x)
  }

  function Squares(xs: seq<real>): real {
    if xs == [] then 0.0 else Squares(xs[..|xs| - 1]) + Square(xs[|xs| - 1])
  }

  // The sum of squared deviations from c.
  function Spread(xs: seq<real>, c: real): (s: real)
    ensures s >= 0.0
  {
    if xs == [] then 0.0 else Spread(xs[..|xs| - 1], c) + Square(xs[|xs| - 1] - c)
  }

  function Mean(xs: seq<real>): real
    requires xs != []
  {
    Sum(xs) / |xs| as real
  }

  // The sample variance, with n - 1 in the denominator.
  function Variance(xs: seq<real>): real
    requires |xs| > 1
  {
    Spread(xs, Mean(xs)) / (|xs| - 1) as real
  }

  // x exceeds three standard deviations, written without the square root.
  predicate AboveThreeSigma(x: real, variance: real) {
    x > 0.0 && Square(x) > 9.0 * variance
  }

  lemma Positive(a: real, b: real)
    requires a >= 0.0 && b >= 0.0
    ensures Times(a, b) == a * b >= 0.0
    ensures a > 0.0 && b > 0.0 ==> Times(a, b) > 0.0
  {
  }

  lemma SquareIsPositive(x: real)
    requires x > 0.0
    ensures Square(x) > 0.0
  {
    Positive(x, x);
    hide Times;
  }

  lemma AboveThreeSigmaMeans(x: real, sigma: real)
    requires sigma >= 0.0
    ensures AboveThreeSigma(x, Square(sigma)) <==> x > 3.0 * sigma
  {
    var y := 3.0 * sigma;
    assert Square(sigma) == sigma * sigma && Square(x) == x * x;
    assert y * y == 9.0 * (sigma * sigma);
    assert (x - y) * (x + y) == x * x - y * y;
    if x > y {
      Positive(x - y, x + y);
    } else if x > 0.0 {
      Positive(y - x, x + y);
    }
  }

  // ----- Dispersion ----------------------------------------------------------------------

  // The spread of n samples around c, from their sum s and the sum q of their squares.
  function Quadratic(n: real, s: real, q: real, c: real): real {
    q - 2.0 * c * s + n * c * c
  }

  lemma {:induction false} SpreadExpands(xs: seq<real>, c: real)
    ensures Spread(xs, c) == Quadratic(|xs| as real, Sum(xs), Squares(xs), c)
    decreases |xs|
  {
    if xs == [] {
    } else {
      var init, x := xs[..|xs| - 1], xs[|xs| - 1];
      SpreadExpands(init, c);
      QuadraticStep(|init| as real, Sum(init), Squares(init), x, c);
      hide Quadratic, Square;
    }
  }

  lemma QuadraticStep(n: real, s: real, q: real, x: real, c: real)
    ensures Quadratic(n, s, q, c) + Square(x - c) == Quadratic(n + 1.0, s + x, q + Square(x), c)
  {
  }

  // The mean and the variance by the plain sums.
  lemma DispersionMeans(xs: seq<real>)
    requires |xs| > 1
    ensures
      var n := |xs| as real;
      && Times(n, Mean(xs)) == Sum(xs)
      && Times(n, Times(n - 1.0, Variance(xs))) == Times(n, Squares(xs)) - Square(Sum(xs))
  {
    var n, m := |xs| as real, Mean(xs);
    SpreadExpands(xs, m);
    SpreadAroundMean(n, Sum(xs), Squares(xs), m, Spread(xs, m));
    VarianceTimes(xs);
    hide Times, Square, Variance, Mean, Spread, Quadratic;
  }

  lemma VarianceTimes(xs: seq<real>)
    requires |xs| > 1
    ensures Times(|xs| as real, Mean(xs)) == Sum(xs)
    ensures Times(|xs| as real - 1.0, Variance(xs)) == Spread(xs, Mean(xs))
  {
    hide Sum, Spread;
  }

  lemma SpreadAroundMean(n: real, s: real, q: real, m: real, spread: real)
    requires n > 0.0 && Times(n, m) == s && spread == Quadratic(n, s, q, m)
    ensures Times(n, spread) == Times(n, q) - Square(s)
  {
    assert n * m * m == s * m;
    assert spread == q - m * s;
    assert n * (m * s) == s * s;
  }

  // A spread around the mean that is not negative bounds the spread around c from below.
  lemma QuadraticBelow(n: real, s: real, q: real, c: real, spread: real)
    requires n > 0.0 && Quadratic(n, s, q, s / n) >= 0.0 && spread == Quadratic(n, s, q, c)
    ensures Times(n, spread) >= Square(s - Times(n, c))
  {
    var m, nc := s / n, n * c;
    assert m * n == s;
    assert n * m * m == s * m;
    Positive(n, q - m * s);
    assert n * (m * s) == s * s;
    assert n * (q - m * s) == n * q - s * s;
    assert Square(s - nc) == s * s - 2.0 * (nc * s) + nc * nc;
    assert n * (2.0 * c * s) == 2.0 * (nc * s);
    assert n * (n * c * c) == nc * nc;
  }

  lemma SpreadBelow(xs: seq<real>, c: real)
    requires xs != []
    ensures Times(|xs| as real, Spread(xs, c)) >= Square(Sum(xs) - Times(|xs| as real, c))
  {
    hide *;
    SpreadExpands(xs, c);
    SpreadExpands(xs, Sum(xs) / |xs| as real);
    QuadraticBelow(|xs| as real, Sum(xs), Squares(xs), c, Spread(xs, c));
  }

  // Samuelson's inequality for the last of n > 1 samples: its squared distance from the
  // mean is at most (n - 1) / n of the spread.
  lemma Samuelson(xs: seq<real>)
    requires |xs| > 1
    ensures
      var n := |xs| as real;
      Times(n, Square(xs[|xs| - 1] - Mean(xs))) <= Times(n - 1.0, Spread(xs, Mean(xs)))
  {
    SamuelsonSplit(xs);
    hide *;
    SpreadBelow(xs[..|xs| - 1], Mean(xs));
    SamuelsonStep(|xs| as real, Mean(xs), Sum(xs[..|xs| - 1]), xs[|xs| - 1], Spread(xs[..|xs| - 1], Mean(xs)));
  }

  lemma SamuelsonSplit(xs: seq<real>)
    requires |xs| > 1
    ensures Mean(xs) == (Sum(xs[..|xs| - 1]) + xs[|xs| - 1]) / |xs| as real
    ensures Spread(xs, Mean(xs)) == Spread(xs[..|xs| - 1], Mean(xs)) + Square(xs[|xs| - 1] - Mean(xs))
  {
    hide *;
    MeanOfLast(xs);
    SpreadOfLast(xs, Mean(xs));
  }

  lemma MeanOfLast(xs: seq<real>)
    requires |xs| > 1
    ensures Mean(xs) == (Sum(xs[..|xs| - 1]) + xs[|xs| - 1]) / |xs| as real
  {
    hide Sum;
    SumOfLast(xs);
  }

  lemma SumOfLast(xs: seq<real>)
    requires xs != []
    ensures Sum(xs) == Sum(xs[..|xs| - 1]) + xs[|xs| - 1]
  {
  }

  lemma SpreadOfLast(xs: seq<real>, c: real)
    requires xs != []
    ensures Spread(xs, c) == Spread(xs[..|xs| - 1], c) + Square(xs[|xs| - 1] - c)
  {
    hide Square;
  }

  lemma SamuelsonStep(n: real, m: real, sum: real, x: real, others: real)
    requires n > 1.0 && m == (sum + x) / n
    requires Times(n - 1.0, others) >= Square(sum - Times(n - 1.0, m))
    ensures Times(n, Square(x - m)) <= Times(n - 1.0, others + Square(x - m))
  {
    var d := x - m;
    assert n * m == sum + x;
    assert (n - 1.0) * m == n * m - m;
    assert sum - (n - 1.0) * m == -d;
    assert Square(-d) == d * d;
    assert (n - 1.0) * (others + d * d) == (n - 1.0) * others + (n * (d * d) - d * d);
  }

  // Equal samples sum and spread like copies of one.
  lemma {:induction false} ConstantSamples(xs: seq<real>, a: real, c: real)
    requires forall i :: 0 <= i < |xs| ==> xs[i] == a
    ensures Sum(xs) == Times(|xs| as real, a)
    ensures Spread(xs, c) == Times(|xs| as real, Square(a - c))
    decreases |xs|
  {
    if xs == [] {
    } else {
      ConstantSamples(xs[..|xs| - 1], a, c);
      hide Square;
    }
  }

  // ----- Order ------------------------------------------------------------------------------

  ghost predicate Ascending(xs: seq<real>) {
    forall i, j :: 0 <= i <= j < |xs| ==> xs[i] <= xs[j]
  }

  // Insert x behind the last sample that is not above it.
  function Insert(xs: seq<real>, x: real): seq<real> {
    if xs == [] || xs[|xs| - 1] <= x then xs + [x]
    else Insert(xs[..|xs| - 1], x) + [xs[|xs| - 1]]
  }

  lemma {:induction false} InsertKeepsSamples(xs: seq<real>, x: real)
    ensures multiset(Insert(xs, x)) == multiset(xs) + multiset{x} && |Insert(xs, x)| == |xs| + 1
    decreases |xs|
  {
    if xs == [] || xs[|xs| - 1] <= x {
    } else {
      InsertKeepsSamples(xs[..|xs| - 1], x);
      assert xs == xs[..|xs| - 1] + [xs[|xs| - 1]];
    }
  }

  lemma {:induction false} InsertKeepsBound(xs: seq<real>, x: real, bound: real)
    requires x <= bound && forall i :: 0 <= i < |xs| ==> xs[i] <= bound
    ensures forall i :: 0 <= i < |Insert(xs, x)| ==> Insert(xs, x)[i] <= bound
    decreases |xs|
  {
    if xs == [] || xs[|xs| - 1] <= x {
    } else {
      InsertKeepsBound(xs[..|xs| - 1], x, bound);
    }
  }

  lemma {:induction false} InsertKeepsOrder(xs: seq<real>, x: real)
    requires Ascending(xs)
    ensures Ascending(Insert(xs, x))
    decreases |xs|
  {
    if xs == [] || xs[|xs| - 1] <= x {
    } else {
      InsertKeepsOrder(xs[..|xs| - 1], x);
      InsertKeepsBound(xs[..|xs| - 1], x, xs[|xs| - 1]);
    }
  }

  // sorted(xs)
  function Sorted(xs: seq<real>): (ys: seq<real>)
    ensures Ascending(ys) && multiset(ys) == multiset(xs) && |ys| == |xs|
  {
    if xs == [] then []
    else
      assert xs == xs[..|xs| - 1] + [xs[|xs| - 1]];
      InsertKeepsOrder(Sorted(xs[..|xs| - 1]), xs[|xs| - 1]);
      InsertKeepsSamples(Sorted(xs[..|xs| - 1]), xs[|xs| - 1]);
      Insert(Sorted(xs[..|xs| - 1]), xs[|xs| - 1])
  }

  // How many samples lie above t.
  function Above(xs: seq<real>, t: real): nat {
    if xs == [] then 0 else Above(xs[..|xs| - 1], t) + if xs[|xs| - 1] > t then 1 else 0
  }

  lemma {:induction false} AboveInserted(xs: seq<real>, x: real, t: real)
    ensures Above(Insert(xs, x), t) == Above(xs, t) + if x > t then 1 else 0
    decreases |xs|
  {
    var ys := Insert(xs, x);
    if xs == [] || xs[|xs| - 1] <= x {
      assert ys[..|ys| - 1] == xs;
    } else {
      AboveInserted(xs[..|xs| - 1], x, t);
      assert ys[..|ys| - 1] == Insert(xs[..|xs| - 1], x);
    }
  }

  lemma {:induction false} AboveSorted(xs: seq<real>, t: real)
    ensures Above(Sorted(xs), t) == Above(xs, t)
    decreases |xs|
  {
    if xs == [] {
    } else {
      AboveSorted(xs[..|xs| - 1], t);
      AboveInserted(Sorted(xs[..|xs| - 1]), xs[|xs| - 1], t);
    }
  }

  lemma {:induction false} AboveAscending(xs: seq<real>, k: nat, t: real)
    requires Ascending(xs) && k < |xs|
    ensures xs[k] > t <==> Above(xs, t) >= |xs| - k
    ensures Above(xs, t) <= |xs|
    decreases |xs|
  {
    var init := xs[..|xs| - 1];
    if k < |init| {
      AboveAscending(init, k, t);
    } else if init != [] {
      AboveAscending(init, |init| - 1, t);
      if xs[k] <= t {
        assert init[|init| - 1] <= t;
        NoneAbove(init, t);
      }
    }
  }

  lemma {:induction false} NoneAbove(xs: seq<real>, t: real)
    requires forall i :: 0 <= i < |xs| ==> xs[i] <= t
    ensures Above(xs, t) == 0
    decreases |xs|
  {
    if xs == [] {
    } else {
      NoneAbove(xs[..|xs| - 1], t);
    }
  }

  // The element of rank k of the sorted samples exceeds t exactly when at most k of the
  // samples do not.
  lemma RankExceedsIff(xs: seq<real>, k: nat, t: real)
    requires k < |xs|
    ensures Sorted(xs)[k] > t <==> Above(xs, t) >= |xs| - k
  {
    AboveSorted(xs, t);
    AboveAscending(Sorted(xs), k, t);
  }
}
