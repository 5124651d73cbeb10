// One row of one region into its totals: AccumulateRow and AccumulateSpan,
// src/reduce/spectral_reduce.cc, and DeviationShift, src/reduce/deviations.h.

module Accumulate {
  import opened Wrappers
  import opened Values
  import opened Deviations
  import opened Statistics
  import opened Slots
  import opened Regions

  // One span's pixels in a slab: `count` of them from `at` on, `stride` apart; and the bytes of a
  // raster that select among them, or none when every pixel is selected.
  datatype SpanPixels = SpanPixels(pixels: seq<Double>, at: nat, stride: nat, count: nat,
                                   mask: seq<Byte>, selected: Option<nat>, step: nat)
  {
    ghost predicate Inside() {
      forall i :: 0 <= i < count ==> at + i * stride < |pixels|
    }

    predicate Takes(i: nat) {
      selected.Some? ==> Bit(mask, selected.value + i * step)
    }

    function Pixel(i: nat): Double
      requires Inside() && i < count
    {
      pixels[at + i * stride]
    }
  }

  // The first n taken pixels of a span that lies on row v from column u on.
  ghost function TakenBelow(span: SpanPixels, u: nat, v: nat, n: nat): set<At> {
    set i | 0 <= i < n && span.Takes(i) :: At(u + i, v)
  }

  // The span's pixels are the image's.
  ghost predicate ShowsImage(span: SpanPixels, image: Image, u: nat, v: nat, channel: nat) {
    span.Inside() && forall i: nat :: i < span.count ==> span.Pixel(i) == image(u + i, v, channel)
  }

  // The first finite pixel taken, or zero: what distances are measured from.
  method DeviationShift(span: SpanPixels, masked: bool) returns (shift: real)
    requires span.Inside() && (!masked ==> span.selected.None?)
    ensures (exists k: nat :: k < span.count && span.Takes(k) && span.Pixel(k) == Finite(shift)
                              && forall i: nat :: i < k && span.Takes(i) ==> !span.Pixel(i).Finite?)
         || (shift == 0.0 && forall i: nat :: i < span.count && span.Takes(i) ==> !span.Pixel(i).Finite?)
  {
    for i := 0 to span.count
      invariant forall j: nat :: j < i && span.Takes(j) ==> !span.Pixel(j).Finite?
    {
      if masked && !span.Takes(i) {
        continue;
      }
      assert span.Takes(i);
      var value := span.Pixel(i);
      if value.Finite? {
        return value.value;
      }
    }
    return 0.0;
  }

  // What the loop has added up once it has been over some pixels.
  datatype Sums = Sums(good: nat, taken: nat, sum: real, sumSq: real, smallest: Double, largest: Double,
                       distanceSum: real, distanceSumSq: real)
  {
    ghost predicate Are(t: Totals, shift: real, deviations: bool) {
      && good == t.good && taken == t.good + t.bad && sum == t.sum && sumSq == t.sumSq
      && smallest == t.smallest && largest == t.largest
      && (deviations ==> Measure(t, shift))
    }

    ghost predicate Measure(t: Totals, shift: real) {
      && distanceSum == t.sum - t.good as real * shift
      && distanceSumSq == t.sumSq - 2.0 * shift * t.sum + t.good as real * shift * shift
    }

    // One taken pixel. What is not finite leaves the sums and the extrema as they are, and is not counted.
    function Take(value: Double, shift: real, deviations: bool): Sums {
      var finite := value.Finite?;
      var clean := if finite then value.value else 0.0;
      var distance := if finite then clean - shift else 0.0;
      Sums(good + (if finite then 1 else 0), taken + 1, sum + clean, sumSq + clean * clean,
           Min(smallest, if finite then Finite(clean) else PosInf),
           Max(largest, if finite then Finite(clean) else NegInf),
           if deviations then distanceSum + distance else distanceSum,
           if deviations then distanceSumSq + distance * distance else distanceSumSq)
    }
  }

  const NO_SUMS := Sums(0, 0, 0.0, 0.0, PosInf, NegInf, 0.0, 0.0)

  lemma TakeAdds(sums: Sums, t: Totals, value: Double, shift: real, deviations: bool)
    requires sums.Are(t, shift, deviations)
    ensures sums.Take(value, shift, deviations).Are(OfPixel(value).Plus(t), shift, deviations)
  {
    if deviations { TakeMeasures(sums, t, value, shift); }
    hide Sums.Measure;
    MinMaxAreMonoids(t.smallest, OfPixel(value).smallest, PosInf);
    MinMaxAreMonoids(t.largest, OfPixel(value).largest, NegInf);
  }

  lemma TakeMeasures(sums: Sums, t: Totals, value: Double, shift: real)
    requires sums.Measure(t, shift)
    ensures sums.Take(value, shift, true).Measure(OfPixel(value).Plus(t), shift)
  {
    hide Min, Max;
    if value.Finite? {
      var x, n := value.value, t.good as real;
      assert (x - shift) * (x - shift) == x * x - 2.0 * shift * x + shift * shift;
      assert (n + 1.0) * shift * shift == n * shift * shift + shift * shift;
    }
  }

  lemma NoneTaken(span: SpanPixels, image: Image, u: nat, v: nat, channel: nat, shift: real, deviations: bool)
    ensures TakenBelow(span, u, v, 0) == {} && Over(TakenBelow(span, u, v, 0), image, channel) == Nothing
    ensures NO_SUMS.Are(Nothing, shift, deviations)
  {}

  lemma OneMoreTaken(span: SpanPixels, image: Image, u: nat, v: nat, channel: nat, n: nat)
    requires ShowsImage(span, image, u, v, channel) && n < span.count
    ensures Over(TakenBelow(span, u, v, n + 1), image, channel)
         == if span.Takes(n) then OfPixel(span.Pixel(n)).Plus(Over(TakenBelow(span, u, v, n), image, channel))
            else Over(TakenBelow(span, u, v, n), image, channel)
  {
    hide SpanPixels.Takes, Over, Totals.Plus, OfPixel;
    var before, after := TakenBelow(span, u, v, n), TakenBelow(span, u, v, n + 1);
    if span.Takes(n) {
      assert after == before + {At(u + n, v)};
      assert after - {At(u + n, v)} == before;
      OverTakesAny(after, At(u + n, v), image, channel);
    } else {
      assert after == before;
    }
  }

  // The per-pixel loop: the taken pixels of the span are added to what the row had so far.
  method AccumulateRow(span: SpanPixels, unitStride: bool, masked: bool, deviations: bool, totals: RowTotals,
                       ghost image: Image, ghost u: nat, ghost v: nat, ghost channel: nat, ghost t: Totals)
    returns (after: RowTotals)
    requires ShowsImage(span, image, u, v, channel) && (unitStride ==> span.stride == 1)
    requires masked <==> span.selected.Some?
    requires RowShows(totals, t, deviations)
    ensures RowShows(after, t.Plus(Over(TakenBelow(span, u, v, span.count), image, channel)), deviations)
  {
    hide Over, TakenBelow, Sums.Are, Sums.Take, RowShows, Totals.Plus;
    var shift := 0.0;
    if deviations {
      shift := DeviationShift(span, masked);
    }
    var sums := NO_SUMS;
    NoneTaken(span, image, u, v, channel, shift, deviations);
    for i := 0 to span.count
      invariant sums.Are(Over(TakenBelow(span, u, v, i), image, channel), shift, deviations)
    {
      OneMoreTaken(span, image, u, v, channel, i);
      if masked && !span.Takes(i) {
        continue;
      }
      assert span.at + i * span.stride < |span.pixels|;
      var value := if unitStride then span.pixels[span.at + i] else span.pixels[span.at + i * span.stride];
      TakeAdds(sums, Over(TakenBelow(span, u, v, i), image, channel), value, shift, deviations);
      sums := sums.Take(value, shift, deviations);
    }
    ghost var s := Over(TakenBelow(span, u, v, span.count), image, channel);
    CauchySchwarz(TakenBelow(span, u, v, span.count), image, channel);
    OverIsProper(TakenBelow(span, u, v, span.count), image, channel);
    after := totals;
    if deviations {
      // `totals` is still the row without this span, which is what the spread merges with.
      var rowSoFar := Spread(totals.good, totals.base, totals.offset, totals.sumSqDev)
        .Merge(OfSpan(sums.good, shift, sums.distanceSum, sums.distanceSumSq));
      after := after.(base := rowSoFar.base, offset := rowSoFar.offset, sumSqDev := rowSoFar.sumSqDev);
    }
    SumsInside(sums, s, shift, deviations);
    after := after.(good := after.good + sums.good, bad := after.bad + (sums.taken - sums.good),
                    sum := after.sum + sums.sum, sumSq := after.sumSq + sums.sumSq,
                    smallest := Min(after.smallest, sums.smallest), largest := Max(after.largest, sums.largest));
    RowAdds(totals, sums, after, t, s, shift, deviations);
  }

  lemma SumsInside(sums: Sums, s: Totals, shift: real, deviations: bool)
    requires sums.Are(s, shift, deviations)
    ensures sums.taken >= sums.good
  {}

  lemma RowAdds(row: RowTotals, sums: Sums, after: RowTotals, t: Totals, s: Totals, shift: real, deviations: bool)
    requires RowShows(row, t, deviations) && sums.Are(s, shift, deviations) && Cauchy(s) && Proper(s)
    requires sums.taken >= sums.good
    requires var z := Spread(row.good, row.base, row.offset, row.sumSqDev)
                        .Merge(OfSpan(sums.good, shift, sums.distanceSum, sums.distanceSumSq));
      after == RowTotals(row.good + sums.good, row.bad + (sums.taken - sums.good), row.sum + sums.sum,
                         row.sumSq + sums.sumSq, Min(row.smallest, sums.smallest), Max(row.largest, sums.largest),
                         if deviations then z.base else row.base, if deviations then z.offset else row.offset,
                         if deviations then z.sumSqDev else row.sumSqDev)
    ensures RowShows(after, t.Plus(s), deviations)
  {
    PlusIsProper(t, s);
    if deviations {
      SpanIsDescribed(sums, s, shift);
      hide OfSpan, Spread.Describes, Cauchy;
      MergeDescribes(Spread(row.good, row.base, row.offset, row.sumSqDev),
                     OfSpan(sums.good, shift, sums.distanceSum, sums.distanceSumSq),
                     t.good, t.sum, t.sumSq, s.good, s.sum, s.sumSq);
      CountMerges(Spread(row.good, row.base, row.offset, row.sumSqDev),
                  OfSpan(sums.good, shift, sums.distanceSum, sums.distanceSumSq));
    }
    hide Spread.Merge, OfSpan, Spread.Describes, Cauchy;
  }

  lemma CountMerges(x: Spread, y: Spread)
    ensures x.Merge(y).count == x.count + y.count
  {}

  lemma SpanIsDescribed(sums: Sums, s: Totals, shift: real)
    requires sums.Are(s, shift, true) && Cauchy(s)
    ensures OfSpan(sums.good, shift, sums.distanceSum, sums.distanceSumSq).Describes(s.good, s.sum, s.sumSq)
    ensures OfSpan(sums.good, shift, sums.distanceSum, sums.distanceSumSq).count == s.good
  {
    ShiftedCauchy(s.good, s.sum, s.sumSq, shift, sums.distanceSum, sums.distanceSumSq);
    hide Cauchy, Spread.Describes, OfSpan;
    SpanDescribes(s.good, shift, s.sum, s.sumSq, sums.distanceSum, sums.distanceSumSq);
    SpanCount(s.good, shift, sums.distanceSum, sums.distanceSumSq);
  }

  lemma SpanCount(n: nat, shift: real, distanceSum: real, distanceSumSq: real)
    ensures OfSpan(n, shift, distanceSum, distanceSumSq).count == n
  {}

  // Cauchy-Schwarz does not mind where the distances are taken from.
  lemma ShiftedCauchy(n: nat, sum: real, sumSq: real, shift: real, distanceSum: real, distanceSumSq: real)
    requires n as real * sumSq >= sum * sum
    requires distanceSum == sum - n as real * shift
    requires distanceSumSq == sumSq - 2.0 * shift * sum + n as real * shift * shift
    ensures n as real * distanceSumSq >= distanceSum * distanceSum
  {
    SquaresExpand(n as real, sum, sumSq, shift);
  }

  lemma SquaresExpand(n: real, sum: real, sumSq: real, shift: real)
    ensures n * (sumSq - 2.0 * shift * sum + n * shift * shift) - (sum - n * shift) * (sum - n * shift)
         == n * sumSq - sum * sum
  {}

  // Adds one span to a row, choosing among the specialised loops: whichever is chosen, the pixels added are the
  // span's selected ones.
  method AccumulateSpan(span: SpanPixels, deviations: bool, totals: RowTotals,
                        ghost image: Image, ghost u: nat, ghost v: nat, ghost channel: nat, ghost t: Totals)
    returns (after: RowTotals)
    requires ShowsImage(span, image, u, v, channel) && RowShows(totals, t, deviations)
    ensures RowShows(after, t.Plus(Over(TakenBelow(span, u, v, span.count), image, channel)), deviations)
  {
    if span.stride == 1 {
      if span.selected.None? {
        after := AccumulateRow(span, true, false, deviations, totals, image, u, v, channel, t);
      } else {
        after := AccumulateRow(span, true, true, deviations, totals, image, u, v, channel, t);
      }
    } else if span.selected.None? {
      after := AccumulateRow(span, false, false, deviations, totals, image, u, v, channel, t);
    } else {
      after := AccumulateRow(span, false, true, deviations, totals, image, u, v, channel, t);
    }
  }
}
