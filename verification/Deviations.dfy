// Spreads of sets of pixels and how they merge: src/reduce/deviations.h, over exact reals.

module Deviations {
  import opened Reals
  import opened Values

  // Of a set of numbers: its size, its mean (which is base + offset) and the squared distances from the mean,
  // added up.
  datatype Spread = Spread(count: nat, base: real, offset: real, sumSqDev: real)
  {
    // The spread of this set and another disjoint from it, from the two spreads alone.
    function Merge(other: Spread): Spread {
      if other.count == 0 then this
      else if count == 0 then other
      else
        var total := (count + other.count) as real;
        var between := (other.base - base) + (other.offset - offset);
        Spread(count + other.count, base,
               offset + between * (other.count as real / total),
               sumSqDev + (other.sumSqDev + between * between * (count as real * other.count as real / total)))
    }

    // What a spread is worth, whatever base it was taken from: it describes a set of `n` pixels
    // that sum to `sum` and whose squares sum to `sumSq`.
    ghost predicate Describes(n: nat, sum: real, sumSq: real) {
      && count == n
      && (n == 0 ==> sumSqDev == 0.0)
      && (n > 0 ==> (base + offset) * n as real == sum
                    && sumSqDev == sumSq - sum * sum / n as real)
    }
  }

  const NoSpread := Spread(0, 0.0, 0.0, 0.0)

  // A span's spread, from the sums of its pixels' distances to `shift`. std::max clamps at zero.
  function OfSpan(count: nat, shift: real, distanceSum: real, distanceSumSq: real): Spread {
    if count == 0 then NoSpread
    else
      var deviations := distanceSumSq - distanceSum * distanceSum / count as real;
      Spread(count, shift, distanceSum / count as real, if deviations < 0.0 then 0.0 else deviations)
  }

  lemma SquareAtLeastZero(x: real)
    ensures x * x >= 0.0
  {}

  lemma SameSign(m: real, x: real)
    requires m > 0.0
    ensures m * x >= 0.0 <==> x >= 0.0
  {}

  // Cauchy-Schwarz over a set of pixels, one pixel at a time: what keeps the clamp from firing.
  lemma SquaresStep(n: nat, s: real, q: real, x: real)
    requires n as real * q >= s * s
    requires n == 0 ==> s == 0.0 && q == 0.0
    ensures (n + 1) as real * (q + x * x) >= (s + x) * (s + x)
  {
    var m := n as real;
    // (m+1)(q+x2) - (s+x)2 = (mq - s2) + q + m x2 - 2 s x, and m times the rest is a square or more
    if n > 0 {
      var rest := q + m * x * x - 2.0 * s * x;
      assert m * rest == (m * q - s * s) + (m * x - s) * (m * x - s) by {
        assert (m * x - s) * (m * x - s) == m * x * m * x - 2.0 * m * x * s + s * s;
      }
      SquareAtLeastZero(m * x - s);
      SameSign(m, rest);
      assert (m + 1.0) * (q + x * x) - (s + x) * (s + x) == (m * q - s * s) + rest;
    }
  }

  // A span's spread is right whatever shift its distances were taken from, and the clamp changes
  // nothing: `sum` and `sumSq` are of the pixels themselves, the distances of the same pixels from
  // `shift`.
  lemma SpanDescribes(n: nat, shift: real, sum: real, sumSq: real, distanceSum: real, distanceSumSq: real)
    requires n as real * distanceSumSq >= distanceSum * distanceSum
    requires distanceSum == sum - n as real * shift
    requires distanceSumSq == sumSq - 2.0 * shift * sum + n as real * shift * shift
    ensures n > 0 ==> distanceSumSq - distanceSum * distanceSum / n as real >= 0.0
    ensures OfSpan(n, shift, distanceSum, distanceSumSq).Describes(n, sum, sumSq)
  {
    if n > 0 {
      var m := n as real;
      var d := distanceSum * distanceSum / m;
      Quotient(d, m, distanceSum * distanceSum);
      assert m * (distanceSumSq - d) == m * distanceSumSq - d * m;
      SameSign(m, distanceSumSq - d);
      Quotient(distanceSum / m, m, distanceSum);
      assert (shift + distanceSum / m) * m == sum;
      var e := sum * sum / m;
      Quotient(e, m, sum * sum);
      assert d == e - 2.0 * shift * sum + m * shift * shift by {
        assert (e - 2.0 * shift * sum + m * shift * shift) * m
            == sum * sum - 2.0 * shift * sum * m + m * shift * m * shift;
        assert distanceSum * distanceSum == sum * sum - 2.0 * sum * (m * shift) + (m * shift) * (m * shift);
        Quotient(e - 2.0 * shift * sum + m * shift * shift, m, distanceSum * distanceSum);
      }
      assert distanceSumSq - d == sumSq - e;
    }
  }

  // Merging describes the union: same count, mean and deviations, whatever bases were chosen.
  lemma MergeDescribes(x: Spread, y: Spread, m: nat, s: real, p: real, n: nat, t: real, q: real)
    requires x.Describes(m, s, p) && y.Describes(n, t, q)
    requires m == 0 ==> s == 0.0 && p == 0.0
    requires n == 0 ==> t == 0.0 && q == 0.0
    ensures x.Merge(y).Describes(m + n, s + t, p + q)
  {
    if m > 0 && n > 0 {
      var a, b := x.base + x.offset, y.base + y.offset;
      MergedMean(m, n, a, b, b - a, s, t);
      SameMerge(x, y);
      hide Spread.Merge, BetweenMeans;
      var z := x.Merge(y);
      var total := (m + n) as real;
      assert (z.base + z.offset) * total == s + t;
      assert z.sumSqDev == (p + q) - (s + t) * (s + t) / total;
    }
  }

  // What the means of two sets differing by `d` adds to their deviations.
  ghost function BetweenMeans(m: real, n: real, k: real, d: real): real
    requires k != 0.0
  {
    d * d * (m * n / k)
  }

  lemma MergedMean(m: nat, n: nat, a: real, b: real, d: real, s: real, t: real)
    requires m > 0 && n > 0 && d == b - a && a * m as real == s && b * n as real == t
    ensures (a + d * (n as real / (m + n) as real)) * (m + n) as real == s + t
    ensures BetweenMeans(m as real, n as real, (m + n) as real, d)
         == s * s / m as real + t * t / n as real - (s + t) * (s + t) / (m + n) as real
  {}

  lemma SameMerge(x: Spread, y: Spread)
    requires x.count > 0 && y.count > 0
    ensures var z := x.Merge(y);
            var a, b := x.base + x.offset, y.base + y.offset;
            && z.count == x.count + y.count
            && z.sumSqDev == x.sumSqDev
                + (y.sumSqDev + BetweenMeans(x.count as real, y.count as real, (x.count + y.count) as real, b - a))
            && z.base + z.offset == a + (b - a) * (y.count as real / (x.count + y.count) as real)
  {}

  // ---- What sum_sq_dev means for a set of pixels ----

  function DistanceOf(pixel: Double, mean: real): real {
    match pixel
    case Finite(x) => (x - mean) * (x - mean)
    case _ => 0.0
  }

  // The reference: the squared distances of a set's finite pixels from `mean`, added up.
  ghost function Distances(s: set<At>, image: Image, channel: nat, mean: real): real
  {
    if s == {} then 0.0
    else
      var p :| p in s;
      DistanceOf(image(p.u, p.v, channel), mean) + Distances(s - {p}, image, channel, mean)
  }

  // The same number from the totals.
  ghost function Moment(t: Totals, mean: real): real {
    t.sumSq - 2.0 * (mean * t.sum) + t.good as real * (mean * mean)
  }

  lemma MomentStep(pixel: Double, t: Totals, mean: real)
    ensures Moment(OfPixel(pixel).Plus(t), mean) == DistanceOf(pixel, mean) + Moment(t, mean)
  {}

  lemma {:induction false} DistancesFromTotals(s: set<At>, image: Image, channel: nat, mean: real)
    ensures Distances(s, image, channel, mean) == Moment(Over(s, image, channel), mean)
    decreases |s|
  {
    if s == {} {
    } else {
      hide Moment, DistanceOf, Totals.Plus, OfPixel;
      var p :| p in s && Distances(s, image, channel, mean)
                         == DistanceOf(image(p.u, p.v, channel), mean) + Distances(s - {p}, image, channel, mean);
      OverTakesAny(s, p, image, channel);
      DistancesFromTotals(s - {p}, image, channel, mean);
      MomentStep(image(p.u, p.v, channel), Over(s - {p}, image, channel), mean);
    }
  }

  lemma MomentAtTheMean(t: Totals)
    requires t.good > 0
    ensures Moment(t, t.sum / t.good as real) == t.sumSq - t.sum * t.sum / t.good as real
  {}

  // A spread that describes a set of pixels holds their mean and their squared distances from it.
  lemma SpreadIsOfTheMean(spread: Spread, s: set<At>, image: Image, channel: nat)
    requires var t := Over(s, image, channel); spread.Describes(t.good, t.sum, t.sumSq)
    ensures spread.count > 0 ==>
              var mean := Over(s, image, channel).sum / spread.count as real;
              && spread.base + spread.offset == mean
              && spread.sumSqDev == Distances(s, image, channel, mean)
  {
    hide Moment, Over, Distances;
    var t := Over(s, image, channel);
    if t.good > 0 {
      Quotient(spread.base + spread.offset, t.good as real, t.sum);
      DistancesFromTotals(s, image, channel, t.sum / t.good as real);
      MomentAtTheMean(t);
    }
  }

  ghost predicate Cauchy(t: Totals) {
    && t.good as real * t.sumSq >= t.sum * t.sum
    && (t.good == 0 ==> t.sum == 0.0 && t.sumSq == 0.0)
  }

  lemma CauchyStep(pixel: Double, t: Totals)
    requires Cauchy(t)
    ensures Cauchy(OfPixel(pixel).Plus(t))
  {
    match pixel
    case Finite(x) =>
      SquaresStep(t.good, t.sum, t.sumSq, x);
      assert (1 + t.good) as real * (x * x + t.sumSq) >= (x + t.sum) * (x + t.sum);
    case _ =>
  }

  // The sums of any set of pixels satisfy Cauchy-Schwarz.
  lemma {:induction false} CauchySchwarz(s: set<At>, image: Image, channel: nat)
    ensures Cauchy(Over(s, image, channel))
    decreases |s|
  {
    if s == {} {
    } else {
      hide Cauchy, Totals.Plus, OfPixel;
      var p :| p in s;
      OverTakesAny(s, p, image, channel);
      CauchySchwarz(s - {p}, image, channel);
      CauchyStep(image(p.u, p.v, channel), Over(s - {p}, image, channel));
    }
  }
}
