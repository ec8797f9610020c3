/** What `DataAveraging` computes from the samples it fetched, over the reals: for each of
    the meter's two channels (major and minor parameter), the mean and the population
    variance (numpy's `std` with `ddof = 0`, before its square root). */
module Statistics {
  import opened Common

  /** One `FETCH?` reply: the major and the minor parameter. */
  datatype Sample = Sample(major: real, minor: real)

  /** The four-entry array `DataAveraging` returns, in its order:
      [major mean, major spread, minor mean, minor spread]. */
  datatype Stats = Stats(majorMean: real, majorSpread: real, minorMean: real, minorSpread: real)

  /** `measurements[index]`. */
  function Entry(s: Stats, index: nat): real
    requires index < 4
  {
    match index
    case 0 => s.majorMean
    case 1 => s.majorSpread
    case 2 => s.minorMean
    case _ => s.minorSpread
  }

  /** Column 0 of the stacked samples, `data[::, 0]`. */
  function Majors(samples: seq<Sample>): (xs: seq<real>)
    ensures |xs| == |samples|
    ensures forall k :: 0 <= k < |samples| ==> xs[k] == samples[k].major
  {
    if |samples| == 0 then [] else Majors(samples[..|samples| - 1]) + [samples[|samples| - 1].major]
  }

  /** Column 1, `data[::, 1]`. */
  function Minors(samples: seq<Sample>): (xs: seq<real>)
    ensures |xs| == |samples|
    ensures forall k :: 0 <= k < |samples| ==> xs[k] == samples[k].minor
  {
    if |samples| == 0 then [] else Minors(samples[..|samples| - 1]) + [samples[|samples| - 1].minor]
  }

  function Sum(xs: seq<real>): real
  {
    if |xs| == 0 then 0.0 else Sum(xs[..|xs| - 1]) + xs[|xs| - 1]
  }

  function Mean(xs: seq<real>): real
    requires |xs| > 0
  {
    Sum(xs) / |xs| as real
  }

  /** The sum of the squared distances of the values from `m`. */
  function SquaredDeviation(xs: seq<real>, m: real): real
  {
    if |xs| == 0 then 0.0
    else SquaredDeviation(xs[..|xs| - 1], m) + (xs[|xs| - 1] - m) * (xs[|xs| - 1] - m)
  }

  /** Population variance: the mean squared distance from the mean. */
  function Variance(xs: seq<real>): real
    requires |xs| > 0
  {
    SquaredDeviation(xs, Mean(xs)) / |xs| as real
  }

  function StatsOf(samples: seq<Sample>): Stats
    requires |samples| > 0
  {
    var majors := Majors(samples);
    var minors := Minors(samples);
    Stats(Mean(majors), Variance(majors), Mean(minors), Variance(minors))
  }

  lemma {:induction false} SumOfConstant(a: real, n: nat)
    ensures Sum(Repeat(a, n)) == n as real * a
  {
    if n > 0 {
      assert Repeat(a, n)[..n - 1] == Repeat(a, n - 1);
      SumOfConstant(a, n - 1);
    }
  }

  lemma {:induction false} NoDeviationFromConstant(a: real, n: nat)
    ensures SquaredDeviation(Repeat(a, n), a) == 0.0
  {
    if n > 0 {
      assert Repeat(a, n)[..n - 1] == Repeat(a, n - 1);
      NoDeviationFromConstant(a, n - 1);
    }
  }

  /** A constant channel has itself as mean and no spread. */
  lemma ConstantChannel(a: real, n: nat)
    requires n > 0
    ensures Mean(Repeat(a, n)) == a && Variance(Repeat(a, n)) == 0.0
  {
    var xs := Repeat(a, n);
    SumOfConstant(a, n);
    ScaleCancels(n as real, a);
    assert Mean(xs) == a;
    NoDeviationFromConstant(a, n);
  }

  lemma ScaleCancels(r: real, a: real)
    requires r > 0.0
    ensures (r * a) / r == a
  {
  }

  /** `n` identical samples (a, b) average to means a and b with zero spread. */
  lemma IdenticalSamples(s: Sample, n: nat)
    requires n > 0
    ensures StatsOf(Repeat(s, n)) == Stats(s.major, 0.0, s.minor, 0.0)
  {
    assert Majors(Repeat(s, n)) == Repeat(s.major, n);
    assert Minors(Repeat(s, n)) == Repeat(s.minor, n);
    ConstantChannel(s.major, n);
    ConstantChannel(s.minor, n);
  }

  lemma {:induction false} SquaredDeviationNonNegative(xs: seq<real>, m: real)
    ensures SquaredDeviation(xs, m) >= 0.0
  {
    if |xs| > 0 {
      SquaredDeviationNonNegative(xs[..|xs| - 1], m);
      var d := xs[|xs| - 1] - m;
      if d < 0.0 {
        assert d * d == (-d) * (-d);
      }
      assert d * d >= 0.0;
    }
  }

  lemma {:induction false} SumBounds(xs: seq<real>, lo: real, hi: real)
    requires forall k :: 0 <= k < |xs| ==> lo <= xs[k] <= hi
    ensures |xs| as real * lo <= Sum(xs) <= |xs| as real * hi
  {
    if |xs| > 0 {
      SumBounds(xs[..|xs| - 1], lo, hi);
    }
  }

  /** The mean lies between the smallest and the largest value, and the spread is never
      negative. */
  lemma MeanAndSpreadBounds(xs: seq<real>, lo: real, hi: real)
    requires |xs| > 0
    requires forall k :: 0 <= k < |xs| ==> lo <= xs[k] <= hi
    ensures lo <= Mean(xs) <= hi
    ensures Variance(xs) >= 0.0
  {
    SumBounds(xs, lo, hi);
    SquaredDeviationNonNegative(xs, Mean(xs));
    var n := |xs| as real;
    assert Sum(xs) / n >= lo by {
      assert Sum(xs) >= n * lo;
    }
    assert Sum(xs) / n <= hi by {
      assert Sum(xs) <= n * hi;
    }
  }
}
