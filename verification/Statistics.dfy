// The statistics a reduction keeps, and what one region's slots at one channel say:
// src/reduce/statistic_slots.h, without the vector they are laid out in.

module Statistics {
  import opened Values
  import opened Deviations

  datatype Statistic = NumPixels | NanCount | Sum | SumSq | Minimum | Maximum | SumSqDev

  const ORDER: seq<Statistic> := [NumPixels, NanCount, Sum, SumSq, Minimum, Maximum, SumSqDev]

  function Position(s: Statistic): (p: nat)
    ensures p < |ORDER| && ORDER[p] == s
  {
    match s
    case NumPixels => 0
    case NanCount => 1
    case Sum => 2
    case SumSq => 3
    case Minimum => 4
    case Maximum => 5
    case SumSqDev => 6
  }

  lemma PositionOfOrder(p: nat)
    requires p < |ORDER|
    ensures Position(ORDER[p]) == p
  {}

  // Which statistics are accumulated, in order, and the slot of each by its position in the order;
  // -1 for one that is not.
  datatype StatisticLayout = StatisticLayout(statistics: seq<Statistic>, slotOf: seq<int>)
  {
    // Spreads merge by their counts and means: where there is a slot for one, there are slots for the count and
    // the sum.
    ghost predicate Valid() {
      && |slotOf| == |ORDER|
      && (forall p :: 0 <= p < |ORDER| ==> -1 <= slotOf[p] < |statistics|)
      && (forall p :: 0 <= p < |ORDER| && slotOf[p] >= 0 ==> statistics[slotOf[p]] == ORDER[p])
      && (forall k :: 0 <= k < |statistics| ==> slotOf[Position(statistics[k])] == k)
      && (Deviations() ==> slotOf[Position(NumPixels)] >= 0 && slotOf[Position(Sum)] >= 0)
    }

    predicate Has(s: Statistic)
      requires |slotOf| == |ORDER|
    {
      slotOf[Position(s)] >= 0
    }

    predicate Deviations()
      requires |slotOf| == |ORDER|
    {
      Has(SumSqDev)
    }

    // The number of slots, two more than the statistics where a mean has to be kept.
    function Stored(): nat
      requires |slotOf| == |ORDER|
    {
      |statistics| + if Deviations() then 2 else 0
    }

    function Slot(s: Statistic): nat
      requires Valid() && Has(s)
    {
      slotOf[Position(s)]
    }

    lemma SlotIs(s: Statistic, t: Statistic)
      requires Valid() && Has(s) && Has(t)
      ensures Slot(s) < |statistics| && statistics[Slot(s)] == s
      ensures Slot(s) == Slot(t) <==> s == t
    {}
  }

  // The layout of a request: the requested statistics in their one order, each in the next slot.
  method LayoutOf(requested: set<Statistic>) returns (layout: StatisticLayout)
    ensures layout.Valid()
    ensures forall s :: layout.Has(s) <==> s in requested || (SumSqDev in requested && (s == NumPixels || s == Sum))
  {
    var wanted := if SumSqDev in requested then requested + {NumPixels, Sum} else requested;
    var statistics: seq<Statistic>, slotOf: seq<int> := [], [];
    for p := 0 to |ORDER|
      invariant |slotOf| == p
      invariant forall i :: 0 <= i < p ==> -1 <= slotOf[i] < |statistics| && (slotOf[i] >= 0 <==> ORDER[i] in wanted)
      invariant forall i :: 0 <= i < p && slotOf[i] >= 0 ==> statistics[slotOf[i]] == ORDER[i]
      invariant forall k :: 0 <= k < |statistics| ==>
                Position(statistics[k]) < p && slotOf[Position(statistics[k])] == k
    {
      PositionOfOrder(p);
      if ORDER[p] in wanted {
        slotOf := slotOf + [|statistics|];
        statistics := statistics + [ORDER[p]];
      } else {
        slotOf := slotOf + [-1];
      }
    }
    layout := StatisticLayout(statistics, slotOf);
  }

  // ---- What one region's slots at one channel hold ----

  // Totals some set of pixels has: the extrema are identities, and the sums zero, exactly when
  // nothing finite was counted.
  ghost predicate Proper(t: Totals) {
    && (t.good == 0 ==> t.smallest == PosInf && t.largest == NegInf && t.sum == 0.0 && t.sumSq == 0.0)
    && (t.good > 0 ==> t.smallest.Finite? && t.largest.Finite?)
  }

  lemma PlusIsProper(a: Totals, b: Totals)
    requires Proper(a) && Proper(b)
    ensures Proper(a.Plus(b))
  {}

  lemma OverIsProper(s: set<At>, image: Image, channel: nat)
    ensures Proper(Over(s, image, channel))
  {
    OverExtrema(s, image, channel);
  }

  // What a statistic of some totals is while it is being accumulated.
  function Value(s: Statistic, t: Totals): Double {
    match s
    case NumPixels => Finite(t.good as real)
    case NanCount => Finite(t.bad as real)
    case Sum => Finite(t.sum)
    case SumSq => Finite(t.sumSq)
    case Minimum => t.smallest
    case Maximum => t.largest
    case SumSqDev => Finite(0.0)
  }

  // How two values of a statistic are put together.
  function Combine(s: Statistic, a: Double, b: Double): Double {
    match s
    case Minimum => Min(a, b)
    case Maximum => Max(a, b)
    case _ => Plus(a, b)
  }

  lemma CombineIsPlus(s: Statistic, a: Totals, b: Totals)
    requires s != SumSqDev
    ensures Combine(s, Value(s, a), Value(s, b)) == Value(s, a.Plus(b))
  {}

  // A region's slots at one channel: its statistics, then the base and the offset of the mean.
  type Cell = seq<Double>

  ghost predicate Shaped(layout: StatisticLayout, cell: Cell) {
    layout.Valid() && |cell| == layout.Stored()
  }

  function CountOf(d: Double): nat {
    if d.Finite? && d.value >= 0.0 then d.value.Floor else 0
  }

  function RealOf(d: Double): real {
    if d.Finite? then d.value else 0.0
  }

  // The spread a cell keeps; its count is the num_pixels slot's.
  function SpreadOf(layout: StatisticLayout, cell: Cell): Spread
    requires Shaped(layout, cell) && layout.Deviations()
  {
    Spread(CountOf(cell[layout.Slot(NumPixels)]), RealOf(cell[|layout.statistics|]),
           RealOf(cell[|layout.statistics| + 1]), RealOf(cell[layout.Slot(SumSqDev)]))
  }

  // A spread written back, all but its count.
  ghost predicate SpreadIs(layout: StatisticLayout, cell: Cell, spread: Spread)
    requires Shaped(layout, cell) && layout.Deviations()
  {
    && cell[layout.Slot(SumSqDev)] == Finite(spread.sumSqDev)
    && cell[|layout.statistics|] == Finite(spread.base)
    && cell[|layout.statistics| + 1] == Finite(spread.offset)
  }

  ghost predicate Shows(layout: StatisticLayout, cell: Cell, t: Totals) {
    && Shaped(layout, cell)
    && (forall k :: 0 <= k < |layout.statistics| && layout.statistics[k] != SumSqDev ==>
          cell[k] == Value(layout.statistics[k], t))
    && (layout.Deviations() ==>
          cell[layout.Slot(SumSqDev)].Finite? && SpreadOf(layout, cell).Describes(t.good, t.sum, t.sumSq))
  }

  // What a block reports: an extremum of nothing is NaN.
  function Report(s: Statistic, t: Totals): Double {
    match s
    case NumPixels => Finite(t.good as real)
    case NanCount => Finite(t.bad as real)
    case Sum => Finite(t.sum)
    case SumSq => Finite(t.sumSq)
    case Minimum => if t.good == 0 then NaN else t.smallest
    case Maximum => if t.good == 0 then NaN else t.largest
    case SumSqDev => Finite(if t.good == 0 then 0.0 else t.sumSq - t.sum * t.sum / t.good as real)
  }

  // What is reported as the sum of squared deviations is the squared distances of the finite pixels from their
  // mean, added up.
  lemma DeviationsReported(s: set<At>, image: Image, channel: nat)
    ensures var t := Over(s, image, channel);
            Report(SumSqDev, t)
            == Finite(if t.good == 0 then 0.0 else Distances(s, image, channel, t.sum / t.good as real))
  {
    hide Over, Distances, Moment;
    var t := Over(s, image, channel);
    if t.good > 0 {
      DistancesFromTotals(s, image, channel, t.sum / t.good as real);
      MomentAtTheMean(t);
    }
  }

  // std::isinf and std::isnan as a hand-over asks them.
  predicate IsInf(d: Double) { d.PosInf? || d.NegInf? }

  function Settled(s: Statistic, d: Double): Double {
    if (s == Minimum || s == Maximum) && IsInf(d) then NaN else d
  }

  function Identity(s: Statistic): Double
    requires s == Minimum || s == Maximum
  {
    if s == Minimum then PosInf else NegInf
  }

  // Settling a cell's statistics is what a block reports.
  lemma SettledIsReport(layout: StatisticLayout, cell: Cell, t: Totals, s: Statistic)
    requires Shows(layout, cell, t) && Proper(t) && layout.Has(s)
    ensures Settled(s, cell[layout.Slot(s)]) == Report(s, t)
    ensures (s == Minimum || s == Maximum) ==>
              !cell[layout.Slot(s)].NaN? && (IsInf(cell[layout.Slot(s)]) ==> cell[layout.Slot(s)] == Identity(s))
  {
    layout.SlotIs(s, s);
  }

  // A cell of nothing: zeros, the identities of the extrema, and an empty spread.
  lemma FreshShowsNothing(layout: StatisticLayout, cell: Cell)
    requires Shaped(layout, cell)
    requires forall k :: 0 <= k < |cell| ==>
               cell[k] == if k < |layout.statistics|
                   && (layout.statistics[k] == Minimum || layout.statistics[k] == Maximum)
                          then Identity(layout.statistics[k]) else Finite(0.0)
    ensures Shows(layout, cell, Nothing)
  {
    if layout.Deviations() {
      layout.SlotIs(SumSqDev, NumPixels);
      FreshSpread(layout, cell);
    }
    hide SpreadOf, Spread.Describes;
  }

  lemma FreshSpread(layout: StatisticLayout, cell: Cell)
    requires Shaped(layout, cell) && layout.Deviations()
    requires cell[layout.Slot(SumSqDev)] == Finite(0.0) && cell[layout.Slot(NumPixels)] == Finite(0.0)
    requires cell[|layout.statistics|] == Finite(0.0) && cell[|layout.statistics| + 1] == Finite(0.0)
    ensures SpreadOf(layout, cell).Describes(0, 0.0, 0.0)
  {}

  // `after` is `to` with `from` put in, statistic by statistic and then spread by spread.
  ghost predicate PutTogether(layout: StatisticLayout, to: Cell, from: Cell, after: Cell)
    requires Shaped(layout, to) && Shaped(layout, from)
  {
    && Shaped(layout, after)
    && (forall k :: 0 <= k < |layout.statistics| && layout.statistics[k] != SumSqDev ==>
          after[k] == Combine(layout.statistics[k], to[k], from[k]))
    && (layout.Deviations() ==> SpreadIs(layout, after, SpreadOf(layout, to).Merge(SpreadOf(layout, from))))
  }

  // Putting two cells together shows the totals of both sets of pixels.
  lemma PutTogetherShowsPlus(layout: StatisticLayout, to: Cell, from: Cell, after: Cell, t: Totals, u: Totals)
    requires Shows(layout, to, t) && Shows(layout, from, u) && Proper(t) && Proper(u)
    requires PutTogether(layout, to, from, after)
    ensures Shows(layout, after, t.Plus(u)) && Proper(t.Plus(u))
  {
    PlusIsProper(t, u);
    if layout.Deviations() { SpreadsAdd(layout, to, from, after, t, u); }
    StatisticsAdd(layout, to, from, after, t, u);
    PlusAdds(t, u);
    hide StatisticLayout.Valid, Value, Totals.Plus, SpreadOf, SpreadIs, Spread.Describes, Spread.Merge, Proper,
        PutTogether;
  }

  lemma StatisticsAdd(layout: StatisticLayout, to: Cell, from: Cell, after: Cell, t: Totals, u: Totals)
    requires Shows(layout, to, t) && Shows(layout, from, u) && PutTogether(layout, to, from, after)
    ensures forall k :: 0 <= k < |layout.statistics| && layout.statistics[k] != SumSqDev ==>
              after[k] == Value(layout.statistics[k], t.Plus(u))
  {
    hide StatisticLayout.Valid, Combine, Value, Totals.Plus, SpreadOf, SpreadIs, Spread.Describes, Spread.Merge;
    forall k | 0 <= k < |layout.statistics| && layout.statistics[k] != SumSqDev
      ensures after[k] == Value(layout.statistics[k], t.Plus(u))
    {
      CombineIsPlus(layout.statistics[k], t, u);
    }
  }

  lemma PlusAdds(t: Totals, u: Totals)
    ensures var s := t.Plus(u); s.good == t.good + u.good && s.sum == t.sum + u.sum && s.sumSq == t.sumSq + u.sumSq
  {}

  lemma SpreadsAdd(layout: StatisticLayout, to: Cell, from: Cell, after: Cell, t: Totals, u: Totals)
    requires Shows(layout, to, t) && Shows(layout, from, u) && Proper(t) && Proper(u)
    requires PutTogether(layout, to, from, after) && layout.Deviations()
    ensures after[layout.Slot(SumSqDev)].Finite?
    ensures SpreadOf(layout, after).Describes(t.good + u.good, t.sum + u.sum, t.sumSq + u.sumSq)
  {
    hide *;
    BothDescribed(layout, to, from, t, u);
    var a, b := SpreadOf(layout, to), SpreadOf(layout, from);
    MergeDescribes(a, b, t.good, t.sum, t.sumSq, u.good, u.sum, u.sumSq);
    CountCombines(layout, to, from, after, t, u);
    MergeCounts(a, b, t, u);
    SpreadIsMerged(layout, to, from, after, a.Merge(b));
  }

  lemma BothDescribed(layout: StatisticLayout, to: Cell, from: Cell, t: Totals, u: Totals)
    requires Shows(layout, to, t) && Shows(layout, from, u) && Proper(t) && Proper(u) && layout.Deviations()
    ensures Shaped(layout, to) && Shaped(layout, from)
    ensures SpreadOf(layout, to).Describes(t.good, t.sum, t.sumSq)
    ensures SpreadOf(layout, from).Describes(u.good, u.sum, u.sumSq)
    ensures t.good == 0 ==> t.sum == 0.0 && t.sumSq == 0.0
    ensures u.good == 0 ==> u.sum == 0.0 && u.sumSq == 0.0
  {
    hide SpreadOf, Spread.Describes, Value, StatisticLayout.Valid;
  }

  lemma MergeCounts(a: Spread, b: Spread, t: Totals, u: Totals)
    requires a.Describes(t.good, t.sum, t.sumSq) && b.Describes(u.good, u.sum, u.sumSq)
    ensures a.Merge(b).count == t.good + u.good
  {}

  lemma SpreadIsMerged(layout: StatisticLayout, to: Cell, from: Cell, after: Cell, z: Spread)
    requires Shaped(layout, to) && Shaped(layout, from) && PutTogether(layout, to, from, after) && layout.Deviations()
    requires z == SpreadOf(layout, to).Merge(SpreadOf(layout, from))
    requires z.count == CountOf(after[layout.Slot(NumPixels)])
    ensures after[layout.Slot(SumSqDev)].Finite?
    ensures SpreadOf(layout, after) == z
  {
    hide Spread.Merge, CountOf, Combine;
    assert SpreadIs(layout, after, z);
  }

  lemma CountCombines(layout: StatisticLayout, to: Cell, from: Cell, after: Cell, t: Totals, u: Totals)
    requires Shows(layout, to, t) && Shows(layout, from, u)
    requires PutTogether(layout, to, from, after) && layout.Deviations()
    ensures CountOf(after[layout.Slot(NumPixels)]) == t.good + u.good
  {
    layout.SlotIs(NumPixels, NumPixels);
    hide Spread.Merge, Spread.Describes;
    assert after[layout.Slot(NumPixels)] == Finite((t.good + u.good) as real);
  }
}
