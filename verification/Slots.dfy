// The accumulator of a spectral reduction, a flat vector, and the blocks made from it:
// StatisticSlots, src/reduce/statistic_slots.h. The vector is laid out [region][statistic][channel].

module Slots {
  import opened Values
  import opened Deviations
  import opened Statistics
  import B = ChunkBlocks

  // ---- Where a value is ----

  function PlaceOf(stored: nat, channels: nat, r: nat, k: nat, c: nat): nat {
    (r * stored + k) * channels + c
  }

  lemma PlaceSplits(stored: nat, channels: nat, r: nat, k: nat, c: nat)
    ensures PlaceOf(stored, channels, r, k, c) == r * (stored * channels) + k * channels + c
  {}

  lemma PlaceInside(regions: nat, stored: nat, channels: nat, r: nat, k: nat, c: nat)
    requires r < regions && k < stored && c < channels
    ensures PlaceOf(stored, channels, r, k, c) < regions * (stored * channels)
  {
    B.MulMono(r + 1, regions, stored);
    assert (r + 1) * stored == r * stored + stored;
    B.MulMono(r * stored + k + 1, regions * stored, channels);
    assert (r * stored + k + 1) * channels == (r * stored + k) * channels + channels;
    assert regions * stored * channels == regions * (stored * channels);
  }

  lemma PlaceIsOnePlace(stored: nat, channels: nat, r: nat, k: nat, c: nat, r': nat, k': nat, c': nat)
    requires k < stored && k' < stored && c < channels && c' < channels
    ensures PlaceOf(stored, channels, r, k, c) == PlaceOf(stored, channels, r', k', c')
       <==> r == r' && k == k' && c == c'
  {
    B.DivMod(r * stored + k, c, channels);
    B.DivMod(r' * stored + k', c', channels);
    B.DivMod(r, k, stored);
    B.DivMod(r', k', stored);
  }

  // The sizes of a vector of slots.
  datatype Extent = Extent(regions: nat, stored: nat, channels: nat)
  {
    function Size(): nat { regions * (stored * channels) }
  }

  ghost function CellAt(values: seq<Double>, e: Extent, r: nat, c: nat): (cell: Cell)
    requires |values| == e.Size() && r < e.regions && c < e.channels
    ensures |cell| == e.stored
  {
    seq(e.stored, k requires 0 <= k < e.stored =>
      PlaceInside(e.regions, e.stored, e.channels, r, k, c); values[PlaceOf(e.stored, e.channels, r, k, c)])
  }

  // `after` differs from `before` in one cell only, which is `cell`.
  ghost predicate OnlyCell(before: seq<Double>, after: seq<Double>, e: Extent, r: nat, c: nat, cell: Cell)
    requires |before| == e.Size() && r < e.regions && c < e.channels
  {
    && |after| == e.Size() && CellAt(after, e, r, c) == cell
    && forall r': nat, c': nat :: r' < e.regions && c' < e.channels && !(r' == r && c' == c) ==>
         CellAt(after, e, r', c') == CellAt(before, e, r', c')
  }

  lemma WriteOne(before: seq<Double>, values: seq<Double>, e: Extent, r: nat, c: nat, cell: Cell, k: nat, x: Double)
    requires |before| == e.Size() && r < e.regions && c < e.channels && k < e.stored
    requires OnlyCell(before, values, e, r, c, cell)
    ensures PlaceOf(e.stored, e.channels, r, k, c) < |values|
    ensures values[PlaceOf(e.stored, e.channels, r, k, c)] == cell[k]
    ensures OnlyCell(before, values[PlaceOf(e.stored, e.channels, r, k, c) := x], e, r, c, cell[k := x])
  {
    PlaceInside(e.regions, e.stored, e.channels, r, k, c);
    var after := values[PlaceOf(e.stored, e.channels, r, k, c) := x];
    forall r': nat, c': nat | r' < e.regions && c' < e.channels
      ensures CellAt(after, e, r', c') == if r' == r && c' == c then cell[k := x] else CellAt(values, e, r', c')
    {
      WriteElsewhere(values, e, r, c, k, x, r', c');
    }
  }

  lemma WriteElsewhere(values: seq<Double>, e: Extent, r: nat, c: nat, k: nat, x: Double, r': nat, c': nat)
    requires |values| == e.Size() && r < e.regions && c < e.channels && k < e.stored
    requires r' < e.regions && c' < e.channels && PlaceOf(e.stored, e.channels, r, k, c) < |values|
    ensures CellAt(values[PlaceOf(e.stored, e.channels, r, k, c) := x], e, r', c')
         == if r' == r && c' == c then CellAt(values, e, r, c)[k := x] else CellAt(values, e, r', c')
  {
    var after := values[PlaceOf(e.stored, e.channels, r, k, c) := x];
    forall k' | 0 <= k' < e.stored
      ensures CellAt(after, e, r', c')[k'] == if r' == r && c' == c && k' == k then x else CellAt(values, e, r', c')[k']
    {
      PlaceInside(e.regions, e.stored, e.channels, r', k', c');
      PlaceIsOnePlace(e.stored, e.channels, r, k, c, r', k', c');
    }
  }

  // ---- How far a cell has been put together ----

  // `to` with the spread of `from` merged in.
  ghost function WithSpread(layout: StatisticLayout, to: Cell, from: Cell): (cell: Cell)
    requires Shaped(layout, to) && Shaped(layout, from) && layout.Deviations()
    ensures |cell| == |to|
  {
    var z := SpreadOf(layout, to).Merge(SpreadOf(layout, from));
    layout.SlotIs(SumSqDev, SumSqDev);
    to[|layout.statistics| := Finite(z.base)][|layout.statistics| + 1 := Finite(z.offset)]
      [layout.Slot(SumSqDev) := Finite(z.sumSqDev)]
  }

  // The spread first, then the statistics one at a time.
  datatype Stage = Stage(spread: bool, done: set<Statistic>)

  ghost function StageOf(layout: StatisticLayout, to: Cell, from: Cell, stage: Stage): (cell: Cell)
    requires Shaped(layout, to) && Shaped(layout, from)
    ensures |cell| == |to|
  {
    var base := if stage.spread && layout.Deviations() then WithSpread(layout, to, from) else to;
    seq(|to|, k requires 0 <= k < |to| =>
      if k < |layout.statistics| && layout.statistics[k] in stage.done && layout.statistics[k] != SumSqDev
      then Combine(layout.statistics[k], base[k], from[k]) else base[k])
  }

  const ALL: set<Statistic> := {NumPixels, NanCount, Sum, SumSq, Minimum, Maximum, SumSqDev}

  lemma LastStagePutsTogether(layout: StatisticLayout, to: Cell, from: Cell)
    requires Shaped(layout, to) && Shaped(layout, from)
    ensures PutTogether(layout, to, from, StageOf(layout, to, from, Stage(true, ALL)))
  {
    if layout.Deviations() { layout.SlotIs(SumSqDev, SumSqDev); }
  }

  lemma FirstStage(layout: StatisticLayout, to: Cell, from: Cell)
    requires Shaped(layout, to) && Shaped(layout, from)
    ensures StageOf(layout, to, from, Stage(false, {})) == to
    ensures !layout.Deviations() ==> StageOf(layout, to, from, Stage(true, {})) == to
    ensures layout.Deviations() ==> StageOf(layout, to, from, Stage(true, {})) == WithSpread(layout, to, from)
  {}

  // One statistic more.
  lemma NextStage(layout: StatisticLayout, to: Cell, from: Cell, spread: bool, done: set<Statistic>, s: Statistic)
    requires Shaped(layout, to) && Shaped(layout, from) && s !in done && s != SumSqDev
    ensures layout.Has(s) ==>
              var cell, k := StageOf(layout, to, from, Stage(spread, done)), layout.Slot(s);
              StageOf(layout, to, from, Stage(spread, done + {s})) == cell[k := Combine(s, cell[k], from[k])]
    ensures !layout.Has(s) ==>
              StageOf(layout, to, from, Stage(spread, done + {s})) == StageOf(layout, to, from, Stage(spread, done))
  {
    if layout.Has(s) { layout.SlotIs(s, s); }
  }

  lemma DeviationsNeedNoStage(layout: StatisticLayout, to: Cell, from: Cell, spread: bool, done: set<Statistic>)
    requires Shaped(layout, to) && Shaped(layout, from)
    ensures StageOf(layout, to, from, Stage(spread, done + {SumSqDev}))
         == StageOf(layout, to, from, Stage(spread, done))
  {}

  // ---- One row's totals ----

  datatype RowTotals = RowTotals(
    good: nat, bad: nat, sum: real, sumSq: real, smallest: Double, largest: Double,
    base: real, offset: real, sumSqDev: real)

  const NO_ROW := RowTotals(0, 0, 0.0, 0.0, PosInf, NegInf, 0.0, 0.0, 0.0)

  ghost predicate RowShows(row: RowTotals, t: Totals, deviations: bool) {
    && Proper(t)
    && row.good == t.good && row.bad == t.bad && row.sum == t.sum && row.sumSq == t.sumSq
    && row.smallest == t.smallest && row.largest == t.largest
    && (deviations ==> Spread(row.good, row.base, row.offset, row.sumSqDev).Describes(t.good, t.sum, t.sumSq))
  }

  function RowValue(s: Statistic, row: RowTotals): Double {
    match s
    case NumPixels => Finite(row.good as real)
    case NanCount => Finite(row.bad as real)
    case Sum => Finite(row.sum)
    case SumSq => Finite(row.sumSq)
    case Minimum => row.smallest
    case Maximum => row.largest
    case SumSqDev => Finite(row.sumSqDev)
  }

  // The row, as the cell it would be.
  ghost function RowCell(layout: StatisticLayout, row: RowTotals): (cell: Cell)
    requires layout.Valid()
    ensures Shaped(layout, cell)
  {
    seq(layout.Stored(), k requires 0 <= k < layout.Stored() =>
      if k < |layout.statistics| then RowValue(layout.statistics[k], row)
      else Finite(if k == |layout.statistics| then row.base else row.offset))
  }

  lemma RowCellShows(layout: StatisticLayout, row: RowTotals, t: Totals)
    requires layout.Valid() && RowShows(row, t, layout.Deviations())
    ensures Shows(layout, RowCell(layout, row), t)
    ensures layout.Deviations() ==>
              SpreadOf(layout, RowCell(layout, row)) == Spread(row.good, row.base, row.offset, row.sumSqDev)
  {
    if layout.Deviations() {
      layout.SlotIs(NumPixels, SumSqDev);
      assert CountOf(Finite(row.good as real)) == row.good;
    }
  }

  // ---- The block a sink is handed ----

  datatype SpectralBlock = SpectralBlock(
    firstChannel: nat, channelCount: nat, regionCount: nat, values: seq<Double>, regionStride: nat,
    statistics: seq<Statistic>, complete: bool, completeness: real)
  {
    // One region's value of one statistic at one channel of the block, as Series finds it; None when
    // the block does not carry the statistic.
    function Series(region: nat, s: Statistic, channel: nat): (bool, Double)
      requires region < regionCount && channel < channelCount
    {
      SeriesFrom(region, s, channel, 0)
    }

    function SeriesFrom(region: nat, s: Statistic, channel: nat, slot: nat): (bool, Double)
      requires region < regionCount && channel < channelCount
      decreases |statistics| - slot
    {
      if slot >= |statistics| then (false, Finite(0.0))
      else if statistics[slot] == s then
        var at := region * regionStride + slot * channelCount + channel;
        (true, if at < |values| then values[at] else NaN)
      else SeriesFrom(region, s, channel, slot + 1)
    }
  }

  // What a block says of a set of totals, for every region, statistic and channel it carries.
  ghost predicate Reports(block: SpectralBlock, layout: StatisticLayout, contents: seq<seq<Totals>>) {
    && layout.Valid() && |contents| == block.regionCount
    && (forall r :: 0 <= r < |contents| ==> |contents[r]| == block.channelCount)
    && forall r: nat, c: nat, s: Statistic :: r < block.regionCount && c < block.channelCount ==>
         block.Series(r, s, c) == if layout.Has(s) then (true, Report(s, contents[r][c])) else (false, Finite(0.0))
  }

  // ---- The slots ----

  ghost predicate AllShow(layout: StatisticLayout, e: Extent, values: seq<Double>, contents: seq<seq<Totals>>) {
    && layout.Valid() && e.stored == layout.Stored() && |values| == e.Size()
    && |contents| == e.regions && (forall r :: 0 <= r < e.regions ==> |contents[r]| == e.channels)
    && forall r: nat, c: nat :: r < e.regions && c < e.channels ==>
         Shows(layout, CellAt(values, e, r, c), contents[r][c]) && Proper(contents[r][c])
  }

  class StatisticSlots {
    var layout: StatisticLayout
    var regions: nat
    var channels: nat
    var regionStride: nat
    // By position in the order; -1 for an absent statistic.
    var offset: seq<int>
    // The slots of the two halves of a region's mean.
    var baseAt: nat
    var offsetAt: nat
    var values: seq<Double>
    // The totals each region has at each channel.
    ghost var contents: seq<seq<Totals>>

    ghost function Size(): Extent
      requires |layout.slotOf| == |ORDER|
      reads `layout, `regions, `channels
    {
      Extent(regions, layout.Stored(), channels)
    }

    // What Reset worked out once.
    ghost predicate Shape()
      reads `layout, `channels, `regionStride, `offset, `baseAt, `offsetAt
    {
      && layout.Valid()
      && regionStride == layout.Stored() * channels
      && |offset| == |ORDER|
      && (forall p :: 0 <= p < |ORDER| ==>
          offset[p] == if layout.slotOf[p] < 0 then -1 else layout.slotOf[p] * channels)
      && baseAt == |layout.statistics| * channels && offsetAt == baseAt + channels
    }

    ghost predicate Valid()
      reads this
    {
      Shape() && AllShow(layout, Size(), values, contents)
    }

    constructor ()
      ensures Valid() && regions == 0 && channels == 0
    {
      layout := StatisticLayout([], [-1, -1, -1, -1, -1, -1, -1]);
      regions, channels, regionStride, baseAt, offsetAt := 0, 0, 0, 0, 0;
      offset := [-1, -1, -1, -1, -1, -1, -1];
      values := [];
      contents := [];
    }

    // Where slot k of one region at one channel is, as the methods find it.
    lemma Located(r: nat, c: nat, k: nat)
      requires Shape() && r < regions && c < channels && k < layout.Stored()
      ensures r * regionStride + c + k * channels == PlaceOf(layout.Stored(), channels, r, k, c)
    {
      PlaceSplits(layout.Stored(), channels, r, k, c);
      assert r * regionStride == r * (layout.Stored() * channels);
    }

    lemma SlotLocated(r: nat, c: nat, s: Statistic)
      requires Shape() && r < regions && c < channels && layout.Has(s)
      ensures layout.Slot(s) < |layout.statistics| <= layout.Stored()
      ensures offset[Position(s)] >= 0
      ensures r * regionStride + c + offset[Position(s)] == PlaceOf(layout.Stored(), channels, r, layout.Slot(s), c)
    {
      layout.SlotIs(s, s);
      Located(r, c, layout.Slot(s));
      hide PlaceOf;
      assert offset[Position(s)] == layout.Slot(s) * channels;
    }

    lemma MeanLocated(r: nat, c: nat)
      requires Shape() && r < regions && c < channels && layout.Deviations()
      ensures r * regionStride + c + baseAt == PlaceOf(layout.Stored(), channels, r, |layout.statistics|, c)
      ensures r * regionStride + c + offsetAt == PlaceOf(layout.Stored(), channels, r, |layout.statistics| + 1, c)
    {
      Located(r, c, |layout.statistics|);
      Located(r, c, |layout.statistics| + 1);
    }

    // One statistic of a row into one cell: its slot, when the layout has it.
    method FoldOne(v: seq<Double>, s: Statistic, at: nat, x: Double, ghost before: seq<Double>, ghost r: nat,
                   ghost c: nat, ghost cell: Cell)
      returns (v': seq<Double>)
      requires Shape() && r < regions && c < channels && at == r * regionStride + c
      requires |before| == Size().Size() && OnlyCell(before, v, Size(), r, c, cell) && |cell| == layout.Stored()
      ensures layout.Has(s) ==> layout.Slot(s) < |cell|
      ensures OnlyCell(before, v', Size(), r, c,
                       if layout.Has(s) then cell[layout.Slot(s) := Combine(s, cell[layout.Slot(s)], x)] else cell)
    {
      if layout.Has(s) { SlotLocated(r, c, s); }
      v' := v;
      if offset[Position(s)] >= 0 {
        hide OnlyCell, Combine, PlaceOf, Extent.Size;
        ghost var k := layout.Slot(s);
        WriteOne(before, v, Size(), r, c, cell, k, Combine(s, cell[k], x));
        v' := v[at + offset[Position(s)] := Combine(s, v[at + offset[Position(s)]], x)];
      }
    }

    // Another set's spread into one cell, before its count is.
    method FoldSpread(v: seq<Double>, at: nat, other: Spread, ghost before: seq<Double>, ghost r: nat, ghost c: nat,
                      ghost cell: Cell, ghost from: Cell)
      returns (v': seq<Double>)
      requires Shape() && r < regions && c < channels && at == r * regionStride + c && layout.Deviations()
      requires |before| == Size().Size() && OnlyCell(before, v, Size(), r, c, cell)
      requires Shaped(layout, cell) && Shaped(layout, from) && other == SpreadOf(layout, from)
      ensures OnlyCell(before, v', Size(), r, c, WithSpread(layout, cell, from))
    {
      var deviationsAt := offset[Position(SumSqDev)];
      var countAt := offset[Position(NumPixels)];
      SlotLocated(r, c, NumPixels);
      SlotLocated(r, c, SumSqDev);
      MeanLocated(r, c);
      ghost var n, count, deviations := |layout.statistics|, layout.Slot(NumPixels), layout.Slot(SumSqDev);
      hide OnlyCell, PlaceOf, Extent.Size, Spread.Merge, CountOf, RealOf, StatisticLayout.Valid;
      ghost var e := Size();
      v' := v;
      WriteOne(before, v', e, r, c, cell, count, NaN);
      WriteOne(before, v', e, r, c, cell, deviations, NaN);
      WriteOne(before, v', e, r, c, cell, n, NaN);
      WriteOne(before, v', e, r, c, cell, n + 1, NaN);
      var spread := Spread(CountOf(v'[at + countAt]), RealOf(v'[at + baseAt]), RealOf(v'[at + offsetAt]),
                           RealOf(v'[at + deviationsAt]));
      assert spread == SpreadOf(layout, cell);
      var z := spread.Merge(other);
      ghost var cell1 := cell[n := Finite(z.base)];
      ghost var cell2 := cell1[n + 1 := Finite(z.offset)];
      WriteOne(before, v', e, r, c, cell, n, Finite(z.base));
      v' := v'[at + baseAt := Finite(z.base)];
      WriteOne(before, v', e, r, c, cell1, n + 1, Finite(z.offset));
      v' := v'[at + offsetAt := Finite(z.offset)];
      WriteOne(before, v', e, r, c, cell2, deviations, Finite(z.sumSqDev));
      v' := v'[at + deviationsAt := Finite(z.sumSqDev)];
      assert WithSpread(layout, cell, from) == cell2[deviations := Finite(z.sumSqDev)];
    }

    // Takes a row into the cell of a region and a channel.
    method Fold(region: nat, channel: nat, row: RowTotals, deviations: bool, ghost t: Totals)
      requires Valid() && region < regions && channel < channels
      requires deviations == layout.Deviations() && RowShows(row, t, deviations)
      modifies this`values, this`contents
      ensures Valid()
      ensures contents
           == old(contents)[region := old(contents)[region][channel := old(contents)[region][channel].Plus(t)]]
    {
      hide *;
      ValidMeans();
      ghost var e := Size();
      var at := region * regionStride + channel;
      BeforeFold(layout, e, values, contents, region, channel, row, t);
      ghost var cell := CellAt(values, e, region, channel);
      var v := values;
      if deviations {
        v := FoldSpread(v, at, Spread(row.good, row.base, row.offset, row.sumSqDev), values, region, channel, cell,
                        RowCell(layout, row));
      }
      v := FoldStatistics(v, at, row, values, region, channel, cell);
      CellFolded(layout, e, values, v, contents, region, channel, cell, RowCell(layout, row), t);
      values := v;
      contents := contents[region := contents[region][channel := contents[region][channel].Plus(t)]];
      ValidAgain();
    }

    lemma ValidMeans()
      requires Valid()
      ensures Shape() && layout.Valid() && |layout.slotOf| == |ORDER| && AllShow(layout, Size(), values, contents)
      ensures Size().regions == regions && Size().channels == channels
    {}

    lemma ContentsShape()
      requires Valid()
      ensures |contents| == regions && forall r :: 0 <= r < regions ==> |contents[r]| == channels
    {}

    lemma ValidAgain()
      requires Shape() && |layout.slotOf| == |ORDER| && AllShow(layout, Size(), values, contents)
      ensures Valid()
    {}

    // Every statistic but the deviations.
    method FoldStatistics(v: seq<Double>, at: nat, row: RowTotals, ghost before: seq<Double>, ghost r: nat,
                          ghost c: nat, ghost cell: Cell)
      returns (v': seq<Double>)
      requires Shape() && r < regions && c < channels && at == r * regionStride + c
      requires |before| == Size().Size() && Shaped(layout, cell)
      requires OnlyCell(before, v, Size(), r, c, StageOf(layout, cell, RowCell(layout, row), Stage(true, {})))
      ensures OnlyCell(before, v', Size(), r, c,
                       StageOf(layout, cell, RowCell(layout, row), Stage(true, ALL - {SumSqDev})))
    {
      hide *;
      ghost var done: set<Statistic> := {};
      v' := FoldStatistic(v, NumPixels, at, row, before, r, c, cell, done);
      done := done + {NumPixels};
      v' := FoldStatistic(v', NanCount, at, row, before, r, c, cell, done);
      done := done + {NanCount};
      v' := FoldStatistic(v', Sum, at, row, before, r, c, cell, done);
      done := done + {Sum};
      v' := FoldStatistic(v', SumSq, at, row, before, r, c, cell, done);
      done := done + {SumSq};
      v' := FoldStatistic(v', Minimum, at, row, before, r, c, cell, done);
      done := done + {Minimum};
      v' := FoldStatistic(v', Maximum, at, row, before, r, c, cell, done);
      done := done + {Maximum};
      EveryStatistic(done);
    }

    // One statistic of a row, into its slot when the layout has it.
    method FoldStatistic(v: seq<Double>, s: Statistic, at: nat, row: RowTotals, ghost before: seq<Double>, ghost r: nat,
                         ghost c: nat, ghost cell: Cell, ghost done: set<Statistic>)
      returns (v': seq<Double>)
      requires Shape() && r < regions && c < channels && at == r * regionStride + c
      requires |before| == Size().Size() && Shaped(layout, cell) && s != SumSqDev && s !in done
      requires OnlyCell(before, v, Size(), r, c, StageOf(layout, cell, RowCell(layout, row), Stage(true, done)))
      ensures OnlyCell(before, v', Size(), r, c, StageOf(layout, cell, RowCell(layout, row), Stage(true, done + {s})))
    {
      ghost var from := RowCell(layout, row);
      NextStage(layout, cell, from, true, done, s);
      if layout.Has(s) { layout.SlotIs(s, s); }
      hide OnlyCell, StageOf, Combine, Extent.Size, CellAt;
      v' := FoldOne(v, s, at, RowValue(s, row), before, r, c, StageOf(layout, cell, from, Stage(true, done)));
    }

    // ---- Starting from nothing ----

    // One extremum of one region, at every channel, to its identity.
    method FillOne(v: seq<Double>, r: nat, s: Statistic) returns (v': seq<Double>)
      requires Shape() && |v| == Size().Size() && r < regions && (s == Minimum || s == Maximum)
      ensures layout.Has(s) ==> layout.Slot(s) < layout.Stored()
      ensures RowRewritten(v, v', Size(), r, 0, FilledRow(layout, v, Size(), r, s))
    {
      hide OnlyCell, PlaceOf, Extent.Size, CellAt, RowRewritten;
      v' := v;
      ghost var e := Size();
      ghost var want := FilledRow(layout, v, e, r, s);
      if layout.Has(s) { layout.SlotIs(s, s); }
      NothingRewritten(v, e, r, 0);
      for c := 0 to channels
        invariant |v'| == |v| && RowRewritten(v, v', e, r, 0, want[..c])
      {
        ghost var cell := CellAt(v, e, r, c);
        StillOld(v, v', e, r, 0, want[..c], c);
        ghost var before := v';
        Untouched(v', e, r, c);
        assert want[c] == FilledCell(layout, v, e, r, c, s);
        if layout.Has(s) { SlotLocated(r, c, s); }
        if offset[Position(s)] >= 0 {
          WriteOne(v', v', e, r, c, cell, layout.Slot(s), Identity(s));
          v' := v'[r * regionStride + c + offset[Position(s)] := Identity(s)];
        }
        OneMoreRewritten(v, before, v', e, r, 0, want[..c], want[c]);
        assert want[..c + 1] == want[..c] + [want[c]];
      }
      assert want[..channels] == want;
    }

    // Every statistic's offset within a region, worked out once rather than on every fold.
    static method OffsetsOf(layout: StatisticLayout, channels: nat) returns (table: seq<int>)
      requires layout.Valid()
      ensures |table| == |ORDER|
      ensures forall p :: 0 <= p < |ORDER| ==>
                table[p] == if layout.slotOf[p] < 0 then -1 else layout.slotOf[p] * channels
    {
      table := [];
      for p := 0 to |ORDER|
        invariant |table| == p
        invariant forall i :: 0 <= i < p ==>
                  table[i] == if layout.slotOf[i] < 0 then -1 else layout.slotOf[i] * channels
      {
        table := table + [if layout.slotOf[p] < 0 then -1 else layout.slotOf[p] * channels];
      }
    }

    // Zeros, and then every region's extrema at their identities.
    method FreshValues() returns (v: seq<Double>)
      requires Shape()
      ensures |v| == Size().Size() && FreshBelow(layout, Size(), v, regions)
    {
      hide *;
      ShapeMeans();
      v := seq(regions * regionStride, _ => Finite(0.0));
      ghost var e := Size();
      NoneFresh(layout, e, v, regionStride);
      for r := 0 to regions
        invariant |v| == e.Size() && FreshBelow(layout, e, v, r)
      {
        var v1 := FillOne(v, r, Minimum);
        RewrittenSize(v, v1, e, r, FilledRow(layout, v, e, r, Minimum));
        var v2 := FillOne(v1, r, Maximum);
        RegionFresh(layout, e, v, v1, v2, r);
        v := v2;
      }
    }

    // Reshape and start from nothing.
    method Reset(layout': StatisticLayout, regions': nat, channels': nat)
      requires layout'.Valid()
      modifies this
      ensures Valid() && layout == layout' && regions == regions' && channels == channels'
      ensures contents == seq(regions', r => seq(channels', c => Nothing))
    {
      hide *;
      LayoutMeans(layout');
      layout, regions, channels := layout', regions', channels';
      regionStride := layout.Stored() * channels;
      baseAt := |layout.statistics| * channels;
      offsetAt := baseAt + channels;
      offset := OffsetsOf(layout', channels');
      ShapeAgain();
      ShapeMeans();
      values := FreshValues();
      contents := seq(regions', r => seq(channels', c => Nothing));
      AllFresh(layout, Size(), values, contents);
      ValidAgain();
    }

    static lemma LayoutMeans(layout: StatisticLayout)
      requires layout.Valid()
      ensures |layout.slotOf| == |ORDER|
    {}

    lemma ShapeAgain()
      requires layout.Valid() && regionStride == layout.Stored() * channels
      requires |offset| == |ORDER|
      requires forall p :: 0 <= p < |ORDER| ==>
                offset[p] == if layout.slotOf[p] < 0 then -1 else layout.slotOf[p] * channels
      requires baseAt == |layout.statistics| * channels && offsetAt == baseAt + channels
      ensures Shape()
    {}

    // ---- Putting partials together ----

    ghost predicate Fits(partial: StatisticSlots, at: nat)
      reads this, partial
    {
      && Shape() && partial.Valid() && partial.layout == layout && partial.regions == regions
      && at + partial.channels <= channels
    }

    lemma FitsMeans(partial: StatisticSlots, at: nat)
      requires Fits(partial, at)
      ensures Shape() && layout.Valid() && |layout.slotOf| == |ORDER|
      ensures partial.Valid() && partial.layout == layout && partial.regions == regions
      ensures at + partial.channels <= channels
      ensures |partial.values| == partial.Size().Size()
      ensures AllShow(layout, partial.Size(), partial.values, partial.contents)
      ensures Size().regions == regions && Size().channels == channels && Size().stored == layout.Stored()
      ensures partial.Size() == Extent(regions, layout.Stored(), partial.channels)
    {}

    // The deviations of one region, at every channel of the partial: they need the counts from before.
    method MergeSpreads(v: seq<Double>, partial: StatisticSlots, r: nat, at: nat) returns (v': seq<Double>)
      requires Fits(partial, at) && layout.Deviations() && r < regions && |v| == Size().Size()
      ensures RowRewritten(v, v', Size(), r, at,
                           StageRow(layout, v, Size(), partial.values, partial.Size(), r, at, Stage(true, {})))
    {
      hide *;
      FitsMeans(partial, at);
      ghost var e, pe := Size(), partial.Size();
      v' := v;
      ghost var want := StageRow(layout, v, e, partial.values, pe, r, at, Stage(true, {}));
      NothingRewritten(v, e, r, at);
      for c := 0 to partial.channels
        invariant RowRewritten(v, v', e, r, at, want[..c])
      {
        ghost var cell, from := CellAt(v, e, r, at + c), CellAt(partial.values, pe, r, c);
        BeforeSpread(layout, v, v', e, partial.values, pe, r, at, c, want);
        var other := partial.SpreadThere(r, c);
        var v'' := FoldSpread(v', r * regionStride + (at + c), other, v', r, at + c, cell, from);
        OneMoreOf(v, v', v'', e, r, at, want, c);
        v' := v'';
      }
      assert want[..partial.channels] == want;
    }

    // The spread one region keeps at one channel.
    method SpreadThere(r: nat, c: nat) returns (spread: Spread)
      requires Valid() && r < regions && c < channels && layout.Deviations()
      ensures spread == SpreadOf(layout, CellAt(values, Size(), r, c))
    {
      var at := r * regionStride + c;
      SlotLocated(r, c, NumPixels);
      SlotLocated(r, c, SumSqDev);
      MeanLocated(r, c);
      ghost var e := Size();
      hide PlaceOf, Extent.Size, AllShow;
      CellHas(values, e, r, c, layout.Slot(NumPixels));
      CellHas(values, e, r, c, layout.Slot(SumSqDev));
      CellHas(values, e, r, c, |layout.statistics|);
      CellHas(values, e, r, c, |layout.statistics| + 1);
      spread := Spread(CountOf(values[at + offset[Position(NumPixels)]]), RealOf(values[at + baseAt]),
                       RealOf(values[at + offsetAt]), RealOf(values[at + offset[Position(SumSqDev)]]));
    }

    // One statistic of one region, at every channel of the partial.
    method MergeSlot(v: seq<Double>, partial: StatisticSlots, r: nat, slot: nat, at: nat) returns (v': seq<Double>)
      requires Fits(partial, at) && r < regions && slot < |layout.statistics| && |v| == Size().Size()
      requires layout.statistics[slot] != SumSqDev
      ensures RowRewritten(v, v', Size(), r, at,
                           SlotRow(layout, v, Size(), partial.values, partial.Size(), r, at, slot))
    {
      hide *;
      FitsMeans(partial, at);
      ghost var e, pe := Size(), partial.Size();
      ghost var want := SlotRow(layout, v, e, partial.values, pe, r, at, slot);
      v' := v;
      var s := layout.statistics[slot];
      NothingRewritten(v, e, r, at);
      for c := 0 to partial.channels
        invariant RowRewritten(v, v', e, r, at, want[..c])
      {
        BeforeSlot(layout, v, v', e, partial.values, pe, r, at, c, slot, want);
        RegionSlotAt(r, at + c, slot);
        partial.RegionSlotAt(r, c, slot);
        CellHas(partial.values, pe, r, c, slot);
        ghost var cell := CellAt(v, e, r, at + c);
        var to := r * regionStride + slot * channels + (at + c);
        var from := r * partial.regionStride + slot * partial.channels + c;
        CellHas(v', e, r, at + c, slot);
        WriteOne(v', v', e, r, at + c, cell, slot, Combine(s, v'[to], partial.values[from]));
        var v'' := v'[to := Combine(s, v'[to], partial.values[from])];
        OneMoreOf(v, v', v'', e, r, at, want, c);
        v' := v'';
      }
      assert want[..partial.channels] == want;
    }

    lemma RegionSlotAt(r: nat, c: nat, slot: nat)
      requires Shape() && r < regions && c < channels && slot < |layout.statistics|
      ensures r * regionStride + slot * channels + c == PlaceOf(layout.Stored(), channels, r, slot, c)
      ensures slot < layout.Stored()
    {
      Located(r, c, slot);
    }

    // One region of a partial, into this region from channel `at` on.
    method MergeRegion(v: seq<Double>, partial: StatisticSlots, r: nat, at: nat) returns (v': seq<Double>)
      requires Fits(partial, at) && r < regions && |v| == Size().Size()
      ensures RowRewritten(v, v', Size(), r, at,
                           StageRow(layout, v, Size(), partial.values, partial.Size(), r, at, Stage(true, ALL)))
    {
      hide *;
      FitsMeans(partial, at);
      ghost var e, pe := Size(), partial.Size();
      v' := v;
      if offset[Position(SumSqDev)] >= 0 {
        HasIs(SumSqDev);
        v' := MergeSpreads(v, partial, r, at);
      } else {
        HasIs(SumSqDev);
        NoSpreadStage(layout, v, e, partial.values, pe, r, at);
      }
      NoneDone(layout);
      for slot := 0 to |layout.statistics|
        invariant RowRewritten(v, v', e, r, at,
                               StageRow(layout, v, e, partial.values, pe, r, at, Stage(true, Done(layout, slot))))
      {
        RewrittenFrom(v, v', e, r, at,
                      StageRow(layout, v, e, partial.values, pe, r, at, Stage(true, Done(layout, slot))));
        if layout.statistics[slot] == SumSqDev {
          SkipSlot(layout, v, v', e, partial.values, pe, r, at, slot);
          continue;
        }
        var v'' := MergeSlot(v', partial, r, slot, at);
        SlotStage(layout, v, v', v'', e, partial.values, pe, r, at, slot);
        v' := v'';
      }
      EverySlotDone(layout, v, e, partial.values, pe, r, at);
    }

    lemma HasIs(s: Statistic)
      requires Shape()
      ensures |offset| == |ORDER| && Position(s) < |ORDER|
      ensures offset[Position(s)] >= 0 <==> layout.Has(s)
      ensures layout.Deviations() == layout.Has(SumSqDev)
    {
      var p := Position(s);
      if layout.slotOf[p] >= 0 { B.MulMono(0, layout.slotOf[p], channels); }
      assert offset[p] == if layout.slotOf[p] < 0 then -1 else layout.slotOf[p] * channels;
    }

    // One partial, every region of it.
    method MergePartial(partial: StatisticSlots, at: nat)
      requires Valid() && Fits(partial, at) && partial != this
      modifies this`values, this`contents
      ensures Valid() && contents == Merged(old(contents), partial.contents, at)
    {
      hide *;
      FitsMeans(partial, at);
      ValidMeans();
      ghost var e, pe, pv := Size(), partial.Size(), partial.values;
      var v := values;
      NoneMerged(layout, e, pe, values, pv, at);
      for r := 0 to regions
        modifies {}
        invariant |v| == e.Size() && RegionsMerged(layout, e, pe, values, pv, at, r, v)
      {
        var v' := MergeRegion(v, partial, r, at);
        OneMoreMerged(layout, e, pe, values, pv, at, r, v, v');
        v := v';
      }
      AllMerged(layout, e, pe, values, pv, at, v, contents, partial.contents);
      values := v;
      contents := Merged(contents, partial.contents, at);
      ValidAgain();
    }

    // partials[0], partials[1], ... into channels [at, at + their channels), in that order.
    method MergeInOrder(partials: seq<StatisticSlots>, count: nat, at: nat, ghost parts: seq<seq<seq<Totals>>>)
      requires Valid() && count <= |partials| && |parts| == count && this !in partials
      requires forall task :: 0 <= task < count ==>
                 partials[task].Valid() && partials[task].layout == layout && partials[task].regions == regions
                 && at + partials[task].channels <= channels && partials[task].contents == parts[task]
      modifies this`values, this`contents
      ensures Valid() && contents == MergedAll(old(contents), parts, at)
    {
      hide Valid, Shape, AllShow;
      for task := 0 to count
        invariant Valid() && contents == MergedAll(old(contents), parts[..task], at)
      {
        ValidMeans();
        MergePartial(partials[task], at);
        assert parts[..task + 1][..task] == parts[..task];
      }
      assert parts[..count] == parts;
    }

    // ---- Handing over ----

    // For one region's extremum: an identity becomes NaN when `report`, and NaN the identity again when not.
    method SettleOne(v: seq<Double>, r: nat, s: Statistic, report: bool) returns (v': seq<Double>)
      requires Shape() && |v| == Size().Size() && r < regions && (s == Minimum || s == Maximum)
      ensures RowRewritten(v, v', Size(), r, 0, SettledRow(layout, v, Size(), r, s, report))
    {
      hide OnlyCell, PlaceOf, Extent.Size, CellAt, RowRewritten;
      v' := v;
      ghost var e := Size();
      ghost var want := SettledRow(layout, v, e, r, s, report);
      if layout.Has(s) { layout.SlotIs(s, s); }
      NothingRewritten(v, e, r, 0);
      for c := 0 to channels
        invariant |v'| == |v| && RowRewritten(v, v', e, r, 0, want[..c])
      {
        ghost var cell := CellAt(v, e, r, c);
        StillOld(v, v', e, r, 0, want[..c], c);
        ghost var before := v';
        Untouched(v', e, r, c);
        assert want[c] == SettledOne(layout, cell, s, report);
        if layout.Has(s) { SlotLocated(r, c, s); }
        if offset[Position(s)] >= 0 {
          var at := r * regionStride + c + offset[Position(s)];
          CellHas(v', e, r, c, layout.Slot(s));
          WriteOne(v', v', e, r, c, cell, layout.Slot(s), SettledTo(s, v'[at], report));
          v' := v'[at := SettledTo(s, v'[at], report)];
        }
        OneMoreRewritten(v, before, v', e, r, 0, want[..c], want[c]);
        assert want[..c + 1] == want[..c] + [want[c]];
      }
      assert want[..channels] == want;
    }

    method Settle(v: seq<Double>, report: bool) returns (v': seq<Double>)
      requires Shape() && |v| == Size().Size()
      ensures |v'| == |v| && SettledBelow(layout, Size(), v, v', regions, report)
    {
      hide *;
      v' := v;
      ShapeMeans();
      ghost var e := Size();
      NoneSettled(layout, e, v, report);
      for r := 0 to regions
        invariant |v'| == |v| && SettledBelow(layout, e, v, v', r, report)
      {
        var v1 := SettleOne(v', r, Minimum, report);
        RewrittenSize(v', v1, e, r, SettledRow(layout, v', e, r, Minimum, report));
        var v2 := SettleOne(v1, r, Maximum, report);
        RegionSettled(layout, e, v, v', v1, v2, r, report);
        v' := v2;
      }
    }

    lemma ShapeMeans()
      requires Shape()
      ensures layout.Valid() && |layout.slotOf| == |ORDER| && Size() == Extent(regions, layout.Stored(), channels)
      ensures regionStride == layout.Stored() * channels
    {}

    // Settles the values, reports them, and settles them back: nothing is changed by it.
    method HandOver(firstChannel: nat, complete: bool, completeness: real) returns (block: SpectralBlock)
      requires Valid()
      modifies this`values
      ensures Valid() && values == old(values)
      ensures Reports(block, layout, contents)
      ensures block.firstChannel == firstChannel && block.channelCount == channels && block.regionCount == regions
      ensures block.complete == complete && block.completeness == completeness
    {
      hide *;
      ValidMeans();
      ShapeMeans();
      ghost var e := Size();
      values := Settle(values, true);
      ghost var reported := values;
      block := SpectralBlock(firstChannel, channels, regions, values, regionStride, layout.statistics, complete,
                             completeness);
      SettledReports(block, layout, e, old(values), contents);
      values := Settle(values, false);
      SettledBack(layout, e, old(values), reported, values, contents);
    }
  }

  function SettledTo(s: Statistic, d: Double, report: bool): Double
    requires s == Minimum || s == Maximum
  {
    if report then (if IsInf(d) then NaN else d) else if d.NaN? then Identity(s) else d
  }

  // A cell with one extremum, if the layout has it, settled.
  ghost function SettledOne(layout: StatisticLayout, cell: Cell, s: Statistic, report: bool): Cell
    requires Shaped(layout, cell) && (s == Minimum || s == Maximum)
  {
    if layout.Has(s) then
      layout.SlotIs(s, s);
      cell[layout.Slot(s) := SettledTo(s, cell[layout.Slot(s)], report)]
    else cell
  }

  ghost function SettledRow(layout: StatisticLayout, v: seq<Double>, e: Extent, r: nat, s: Statistic,
                            report: bool): (cells: seq<Cell>)
    requires layout.Valid() && |v| == e.Size() && e.stored == layout.Stored() && r < e.regions
    requires s == Minimum || s == Maximum
    ensures |cells| == e.channels
  {
    seq(e.channels, c requires 0 <= c < e.channels => SettledOne(layout, CellAt(v, e, r, c), s, report))
  }

  // A cell with both its extrema settled.
  ghost function SettledCell(layout: StatisticLayout, cell: Cell, report: bool): (settled: Cell)
    requires Shaped(layout, cell)
    ensures |settled| == |cell|
  {
    seq(|cell|, k requires 0 <= k < |cell| =>
      if k < |layout.statistics| && (layout.statistics[k] == Minimum || layout.statistics[k] == Maximum)
      then SettledTo(layout.statistics[k], cell[k], report) else cell[k])
  }

  lemma BothSettled(layout: StatisticLayout, cell: Cell, report: bool)
    requires Shaped(layout, cell)
    ensures var one := SettledOne(layout, cell, Minimum, report);
            Shaped(layout, one) && SettledOne(layout, one, Maximum, report) == SettledCell(layout, cell, report)
  {
    if layout.Has(Minimum) { layout.SlotIs(Minimum, Minimum); }
    if layout.Has(Maximum) { layout.SlotIs(Maximum, Maximum); }
  }

  ghost predicate SettledBelow(layout: StatisticLayout, e: Extent, v0: seq<Double>, v: seq<Double>, n: nat,
                               report: bool)
    requires layout.Valid() && |v0| == e.Size() && |v| == e.Size()
  {
    && e.stored == layout.Stored()
    && forall r: nat, c: nat :: r < e.regions && c < e.channels ==>
         CellAt(v, e, r, c) == if r < n then SettledCell(layout, CellAt(v0, e, r, c), report) else CellAt(v0, e, r, c)
  }

  lemma NoneSettled(layout: StatisticLayout, e: Extent, v: seq<Double>, report: bool)
    requires layout.Valid() && |v| == e.Size() && e.stored == layout.Stored()
    ensures SettledBelow(layout, e, v, v, 0, report)
  {}

  lemma RegionSettled(layout: StatisticLayout, e: Extent, v0: seq<Double>, v: seq<Double>, v1: seq<Double>,
                      v2: seq<Double>, r: nat, report: bool)
    requires layout.Valid() && |v0| == e.Size() && |v| == e.Size() && r < e.regions
    requires SettledBelow(layout, e, v0, v, r, report)
    requires RowRewritten(v, v1, e, r, 0, SettledRow(layout, v, e, r, Minimum, report))
    requires |v1| == e.Size()
    requires RowRewritten(v1, v2, e, r, 0, SettledRow(layout, v1, e, r, Maximum, report))
    ensures |v2| == e.Size() && SettledBelow(layout, e, v0, v2, r + 1, report)
  {
    hide CellAt, SettledOne, SettledCell, StatisticLayout.Valid, Extent.Size;
    forall c: nat | c < e.channels ensures CellAt(v2, e, r, c) == SettledCell(layout, CellAt(v0, e, r, c), report) {
      assert CellAt(v, e, r, c) == CellAt(v0, e, r, c);
      BothSettled(layout, CellAt(v0, e, r, c), report);
      assert CellAt(v1, e, r, c) == SettledOne(layout, CellAt(v, e, r, c), Minimum, report);
      assert CellAt(v2, e, r, c) == SettledOne(layout, CellAt(v1, e, r, c), Maximum, report);
    }
  }

  // Settling one way and then the other gives the cell back: no shown extremum is NaN, and only an
  // identity is infinite.
  lemma CellSettledBack(layout: StatisticLayout, cell: Cell, t: Totals)
    requires Statistics.Shows(layout, cell, t) && Proper(t)
    ensures SettledCell(layout, SettledCell(layout, cell, true), false) == cell
  {
    var back := SettledCell(layout, SettledCell(layout, cell, true), false);
    forall k | 0 <= k < |cell| ensures back[k] == cell[k] {
      if k < |layout.statistics| && (layout.statistics[k] == Minimum || layout.statistics[k] == Maximum) {
        SettledIsReport(layout, cell, t, layout.statistics[k]);
      }
    }
  }

  // A vector of slots is its cells.
  lemma CellsAreAll(v: seq<Double>, w: seq<Double>, e: Extent)
    requires |v| == |w| == e.Size()
    requires forall r: nat, c: nat :: r < e.regions && c < e.channels ==> CellAt(v, e, r, c) == CellAt(w, e, r, c)
    ensures v == w
  {
    forall i | 0 <= i < e.Size() ensures v[i] == w[i] {
      var r, k, c := PlaceIs(e, i);
      CellHas(v, e, r, c, k);
      CellHas(w, e, r, c, k);
    }
  }

  lemma RowBelow(i: nat, rows: nat, width: nat) returns (row: nat, inRow: nat)
    requires i < rows * width
    ensures row < rows && inRow < width && i == row * width + inRow
  {
    if width > 0 { B.AtOrPast(rows, i, width); }
    row, inRow := i / width, i % width;
  }

  // Every index is some slot of some region at some channel.
  lemma PlaceIs(e: Extent, i: nat) returns (r: nat, k: nat, c: nat)
    requires i < e.Size()
    ensures r < e.regions && k < e.stored && c < e.channels && i == PlaceOf(e.stored, e.channels, r, k, c)
  {
    Associates(e.regions, e.stored, e.channels);
    var row: nat;
    row, c := RowBelow(i, e.regions * e.stored, e.channels);
    r, k := RowBelow(row, e.regions, e.stored);
  }

  lemma Associates(a: nat, b: nat, c: nat)
    ensures a * (b * c) == (a * b) * c
  {}

  lemma SettledBack(layout: StatisticLayout, e: Extent, v0: seq<Double>, v1: seq<Double>, v2: seq<Double>,
                    contents: seq<seq<Totals>>)
    requires AllShow(layout, e, v0, contents) && |v1| == |v2| == e.Size()
    requires SettledBelow(layout, e, v0, v1, e.regions, true) && SettledBelow(layout, e, v1, v2, e.regions, false)
    ensures v2 == v0
  {
    hide CellAt, SettledCell, StatisticLayout.Valid, Extent.Size, Statistics.Shows, Proper;
    forall r: nat, c: nat | r < e.regions && c < e.channels ensures CellAt(v2, e, r, c) == CellAt(v0, e, r, c) {
      CellSettledBack(layout, CellAt(v0, e, r, c), contents[r][c]);
    }
    CellsAreAll(v2, v0, e);
  }

  // The first slot from `slot` on that holds a statistic is the layout's, which has it nowhere else.
  lemma {:induction false} SeriesIs(block: SpectralBlock, layout: StatisticLayout, region: nat, s: Statistic,
                                    channel: nat, slot: nat)
    requires region < block.regionCount && channel < block.channelCount
    requires layout.Valid() && block.statistics == layout.statistics && slot <= |layout.statistics|
    requires layout.Has(s) ==> slot <= layout.Slot(s)
    ensures block.SeriesFrom(region, s, channel, slot)
         == if layout.Has(s) then
              var at := region * block.regionStride + layout.Slot(s) * block.channelCount + channel;
              (true, if at < |block.values| then block.values[at] else NaN)
            else (false, Finite(0.0))
    decreases |layout.statistics| - slot
  {
    if slot < |layout.statistics| {
      assert layout.slotOf[Position(layout.statistics[slot])] == slot;
      if layout.statistics[slot] != s { SeriesIs(block, layout, region, s, channel, slot + 1); }
    }
  }

  lemma SettledReports(block: SpectralBlock, layout: StatisticLayout, e: Extent, v0: seq<Double>,
                       contents: seq<seq<Totals>>)
    requires AllShow(layout, e, v0, contents) && |block.values| == e.Size()
    requires SettledBelow(layout, e, v0, block.values, e.regions, true)
    requires block.statistics == layout.statistics && block.regionStride == layout.Stored() * e.channels
    requires block.regionCount == e.regions && block.channelCount == e.channels
    ensures Reports(block, layout, contents)
  {
    assert |layout.slotOf| == |ORDER|;
    hide CellAt, SettledCell, StatisticLayout.Valid, Extent.Size, Statistics.Shows, Proper;
    forall r: nat, c: nat, s: Statistic | r < e.regions && c < e.channels
      ensures block.Series(r, s, c) == if layout.Has(s) then (true, Report(s, contents[r][c])) else (false, Finite(0.0))
    {
      SeriesReports(block, layout, e, CellAt(v0, e, r, c), contents[r][c], r, c, s);
    }
  }

  lemma SeriesReports(block: SpectralBlock, layout: StatisticLayout, e: Extent, cell: Cell, t: Totals, r: nat, c: nat,
                      s: Statistic)
    requires Statistics.Shows(layout, cell, t) && Proper(t) && r < e.regions && c < e.channels
    requires |block.values| == e.Size() && CellAt(block.values, e, r, c) == SettledCell(layout, cell, true)
    requires block.statistics == layout.statistics && block.regionStride == layout.Stored() * e.channels
    requires block.regionCount == e.regions && block.channelCount == e.channels && e.stored == layout.Stored()
    ensures block.Series(r, s, c) == if layout.Has(s) then (true, Report(s, t)) else (false, Finite(0.0))
  {
    if layout.Has(s) { layout.SlotIs(s, s); }
    SeriesIs(block, layout, r, s, c, 0);
    if layout.Has(s) {
      var k := layout.Slot(s);
      hide StatisticLayout.Valid, SpectralBlock.SeriesFrom, Extent.Size, CellAt;
      CellHas(block.values, e, r, c, k);
      PlaceSplits(e.stored, e.channels, r, k, c);
      SettledIsReport(layout, cell, t, s);
    }
  }

  // The totals of channels [at, ...) with a partial's added.
  ghost function Merged(contents: seq<seq<Totals>>, part: seq<seq<Totals>>, at: nat): (merged: seq<seq<Totals>>)
    ensures |merged| == |contents| && forall r :: 0 <= r < |contents| ==> |merged[r]| == |contents[r]|
  {
    seq(|contents|, r requires 0 <= r < |contents| =>
      seq(|contents[r]|, c requires 0 <= c < |contents[r]| =>
        if r < |part| && at <= c < at + |part[r]| then contents[r][c].Plus(part[r][c - at]) else contents[r][c]))
  }

  ghost function MergedAll(contents: seq<seq<Totals>>, parts: seq<seq<seq<Totals>>>, at: nat): seq<seq<Totals>> {
    if parts == [] then contents
    else Merged(MergedAll(contents, parts[..|parts| - 1], at), parts[|parts| - 1], at)
  }

  // The regions below n of a vector put together with a partial's.
  ghost predicate RegionsMerged(layout: StatisticLayout, e: Extent, pe: Extent, v0: seq<Double>, pv: seq<Double>,
                                at: nat, n: nat, v: seq<Double>)
    requires layout.Valid() && |v0| == e.Size() && |pv| == pe.Size() && |v| == e.Size()
    requires e.stored == pe.stored == layout.Stored() && e.regions == pe.regions && at + pe.channels <= e.channels
  {
    forall r: nat, c: nat :: r < e.regions && c < e.channels ==>
      CellAt(v, e, r, c)
      == if r < n && at <= c < at + pe.channels
         then StageOf(layout, CellAt(v0, e, r, c), CellAt(pv, pe, r, c - at), Stage(true, ALL))
         else CellAt(v0, e, r, c)
  }

  lemma NoneMerged(layout: StatisticLayout, e: Extent, pe: Extent, v0: seq<Double>, pv: seq<Double>, at: nat)
    requires layout.Valid() && |v0| == e.Size() && |pv| == pe.Size()
    requires e.stored == pe.stored == layout.Stored() && e.regions == pe.regions && at + pe.channels <= e.channels
    ensures RegionsMerged(layout, e, pe, v0, pv, at, 0, v0)
  {}

  lemma OneMoreMerged(layout: StatisticLayout, e: Extent, pe: Extent, v0: seq<Double>, pv: seq<Double>, at: nat,
                      r: nat, v: seq<Double>, v': seq<Double>)
    requires layout.Valid() && |v0| == e.Size() && |pv| == pe.Size() && |v| == e.Size() && r < e.regions
    requires e.stored == pe.stored == layout.Stored() && e.regions == pe.regions && at + pe.channels <= e.channels
    requires RegionsMerged(layout, e, pe, v0, pv, at, r, v)
    requires RowRewritten(v, v', e, r, at, StageRow(layout, v, e, pv, pe, r, at, Stage(true, ALL)))
    ensures |v'| == e.Size() && RegionsMerged(layout, e, pe, v0, pv, at, r + 1, v')
  {
    hide CellAt, StageOf, StatisticLayout.Valid, Extent.Size;
    forall c: nat | at <= c < at + pe.channels
      ensures StageRow(layout, v, e, pv, pe, r, at, Stage(true, ALL))[c - at]
           == StageOf(layout, CellAt(v0, e, r, c), CellAt(pv, pe, r, c - at), Stage(true, ALL))
    {
      assert CellAt(v, e, r, c) == CellAt(v0, e, r, c);
    }
  }

  lemma AllMerged(layout: StatisticLayout, e: Extent, pe: Extent, v0: seq<Double>, pv: seq<Double>, at: nat,
                  v: seq<Double>, contents: seq<seq<Totals>>, part: seq<seq<Totals>>)
    requires AllShow(layout, e, v0, contents) && AllShow(layout, pe, pv, part) && |v| == e.Size()
    requires e.regions == pe.regions && at + pe.channels <= e.channels
    requires RegionsMerged(layout, e, pe, v0, pv, at, e.regions, v)
    ensures AllShow(layout, e, v, Merged(contents, part, at))
  {
    hide CellAt, StageOf, StatisticLayout.Valid, Extent.Size, Statistics.Shows, Proper, Totals.Plus;
    var merged := Merged(contents, part, at);
    forall r: nat, c: nat | r < e.regions && c < e.channels
      ensures Statistics.Shows(layout, CellAt(v, e, r, c), merged[r][c]) && Proper(merged[r][c])
    {
      if at <= c < at + pe.channels {
        var to, from := CellAt(v0, e, r, c), CellAt(pv, pe, r, c - at);
        CellsPutTogether(layout, to, from, contents[r][c], part[r][c - at]);
      }
    }
  }

  lemma CellsPutTogether(layout: StatisticLayout, to: Cell, from: Cell, t: Totals, u: Totals)
    requires Statistics.Shows(layout, to, t) && Statistics.Shows(layout, from, u) && Proper(t) && Proper(u)
    ensures Shaped(layout, to) && Shaped(layout, from)
    ensures Statistics.Shows(layout, StageOf(layout, to, from, Stage(true, ALL)), t.Plus(u)) && Proper(t.Plus(u))
  {
    LastStagePutsTogether(layout, to, from);
    PutTogetherShowsPlus(layout, to, from, StageOf(layout, to, from, Stage(true, ALL)), t, u);
  }

  // The first n statistics of a layout.
  ghost function Done(layout: StatisticLayout, n: nat): set<Statistic>
    requires n <= |layout.statistics|
  {
    set k | 0 <= k < n :: layout.statistics[k]
  }

  lemma NoneDone(layout: StatisticLayout)
    ensures Done(layout, 0) == {}
  {}

  lemma OneMoreDone(layout: StatisticLayout, n: nat)
    requires layout.Valid() && n < |layout.statistics|
    ensures Done(layout, n + 1) == Done(layout, n) + {layout.statistics[n]} && layout.statistics[n] !in Done(layout, n)
    ensures layout.Has(layout.statistics[n]) && layout.Slot(layout.statistics[n]) == n
  {}

  // A region's cells with one slot put together with the partial's.
  ghost function SlotRow(layout: StatisticLayout, v: seq<Double>, e: Extent, pv: seq<Double>, pe: Extent, r: nat,
                         at: nat, slot: nat): (cells: seq<Cell>)
    requires layout.Valid() && |v| == e.Size() && |pv| == pe.Size() && e.stored == pe.stored == layout.Stored()
    requires r < e.regions && r < pe.regions && at + pe.channels <= e.channels && slot < |layout.statistics|
    ensures |cells| == pe.channels
  {
    seq(pe.channels, c requires 0 <= c < pe.channels =>
      var cell, from := CellAt(v, e, r, at + c), CellAt(pv, pe, r, c);
      cell[slot := Combine(layout.statistics[slot], cell[slot], from[slot])])
  }

  lemma BeforeSlot(layout: StatisticLayout, v: seq<Double>, v': seq<Double>, e: Extent, pv: seq<Double>, pe: Extent,
                   r: nat, at: nat, c: nat, slot: nat, want: seq<Cell>)
    requires layout.Valid() && |v| == e.Size() && |pv| == pe.Size() && e.stored == pe.stored == layout.Stored()
    requires r < e.regions && r < pe.regions && at + pe.channels <= e.channels && c < pe.channels
    requires slot < |layout.statistics| && want == SlotRow(layout, v, e, pv, pe, r, at, slot)
    requires RowRewritten(v, v', e, r, at, want[..c])
    ensures |v'| == e.Size() && at + c < e.channels && slot < e.stored
    ensures OnlyCell(v', v', e, r, at + c, CellAt(v, e, r, at + c))
    ensures CellAt(v', e, r, at + c) == CellAt(v, e, r, at + c)
    ensures var cell, from := CellAt(v, e, r, at + c), CellAt(pv, pe, r, c);
            want[c] == cell[slot := Combine(layout.statistics[slot], cell[slot], from[slot])]
  {
    hide CellAt, Combine;
  }

  // Rewriting the same cells twice leaves the second.
  lemma RewrittenTwice(v0: seq<Double>, v1: seq<Double>, v2: seq<Double>, e: Extent, r: nat, at: nat, a: seq<Cell>,
                       b: seq<Cell>)
    requires |v0| == e.Size() && RowRewritten(v0, v1, e, r, at, a)
    requires |v1| == e.Size() && RowRewritten(v1, v2, e, r, at, b) && |a| == |b|
    ensures RowRewritten(v0, v2, e, r, at, b)
  {
    hide CellAt;
  }

  lemma SlotStage(layout: StatisticLayout, v: seq<Double>, v1: seq<Double>, v2: seq<Double>, e: Extent, pv: seq<Double>,
                  pe: Extent, r: nat, at: nat, slot: nat)
    requires layout.Valid() && |v| == e.Size() && |pv| == pe.Size() && e.stored == pe.stored == layout.Stored()
    requires r < e.regions && r < pe.regions && at + pe.channels <= e.channels && slot < |layout.statistics|
    requires layout.statistics[slot] != SumSqDev
    requires RowRewritten(v, v1, e, r, at, StageRow(layout, v, e, pv, pe, r, at, Stage(true, Done(layout, slot))))
    requires |v1| == e.Size() && RowRewritten(v1, v2, e, r, at, SlotRow(layout, v1, e, pv, pe, r, at, slot))
    ensures RowRewritten(v, v2, e, r, at, StageRow(layout, v, e, pv, pe, r, at, Stage(true, Done(layout, slot + 1))))
  {
    var a := StageRow(layout, v, e, pv, pe, r, at, Stage(true, Done(layout, slot)));
    var b := StageRow(layout, v, e, pv, pe, r, at, Stage(true, Done(layout, slot + 1)));
    var w := SlotRow(layout, v1, e, pv, pe, r, at, slot);
    forall c | 0 <= c < pe.channels ensures w[c] == b[c] {
      SlotStageAt(layout, v, v1, e, pv, pe, r, at, slot, c);
    }
    assert w == b;
    RewrittenTwice(v, v1, v2, e, r, at, a, w);
  }

  lemma SlotStageAt(layout: StatisticLayout, v: seq<Double>, v1: seq<Double>, e: Extent, pv: seq<Double>,
                    pe: Extent, r: nat, at: nat, slot: nat, c: nat)
    requires layout.Valid() && |v| == e.Size() && |pv| == pe.Size() && e.stored == pe.stored == layout.Stored()
    requires r < e.regions && r < pe.regions && at + pe.channels <= e.channels && slot < |layout.statistics|
    requires layout.statistics[slot] != SumSqDev && c < pe.channels
    requires RowRewritten(v, v1, e, r, at, StageRow(layout, v, e, pv, pe, r, at, Stage(true, Done(layout, slot))))
    requires |v1| == e.Size()
    ensures SlotRow(layout, v1, e, pv, pe, r, at, slot)[c]
         == StageRow(layout, v, e, pv, pe, r, at, Stage(true, Done(layout, slot + 1)))[c]
  {
    var to, from := CellAt(v, e, r, at + c), CellAt(pv, pe, r, c);
    OneMoreDone(layout, slot);
    assert CellAt(v1, e, r, at + c) == StageOf(layout, to, from, Stage(true, Done(layout, slot)));
    hide CellAt, StageOf, Combine;
    NextStage(layout, to, from, true, Done(layout, slot), layout.statistics[slot]);
  }

  lemma SkipSlot(layout: StatisticLayout, v: seq<Double>, v1: seq<Double>, e: Extent, pv: seq<Double>,
                 pe: Extent, r: nat, at: nat, slot: nat)
    requires layout.Valid() && |v| == e.Size() && |pv| == pe.Size() && e.stored == pe.stored == layout.Stored()
    requires r < e.regions && r < pe.regions && at + pe.channels <= e.channels && slot < |layout.statistics|
    requires layout.statistics[slot] == SumSqDev
    requires RowRewritten(v, v1, e, r, at, StageRow(layout, v, e, pv, pe, r, at, Stage(true, Done(layout, slot))))
    ensures RowRewritten(v, v1, e, r, at, StageRow(layout, v, e, pv, pe, r, at, Stage(true, Done(layout, slot + 1))))
  {
    OneMoreDone(layout, slot);
    SameStages(layout, v, e, pv, pe, r, at, Stage(true, Done(layout, slot)), Stage(true, Done(layout, slot + 1)));
  }

  lemma SameStages(layout: StatisticLayout, v: seq<Double>, e: Extent, pv: seq<Double>, pe: Extent, r: nat, at: nat,
                   a: Stage, b: Stage)
    requires layout.Valid() && |v| == e.Size() && |pv| == pe.Size() && e.stored == pe.stored == layout.Stored()
    requires r < e.regions && r < pe.regions && at + pe.channels <= e.channels && a.spread == b.spread
    requires forall k :: 0 <= k < |layout.statistics| && layout.statistics[k] != SumSqDev ==>
               (layout.statistics[k] in a.done <==> layout.statistics[k] in b.done)
    ensures StageRow(layout, v, e, pv, pe, r, at, a) == StageRow(layout, v, e, pv, pe, r, at, b)
  {
    forall c | 0 <= c < pe.channels
      ensures StageOf(layout, CellAt(v, e, r, at + c), CellAt(pv, pe, r, c), a)
           == StageOf(layout, CellAt(v, e, r, at + c), CellAt(pv, pe, r, c), b)
    {
      SameStage(layout, CellAt(v, e, r, at + c), CellAt(pv, pe, r, c), a, b);
    }
    assert forall c :: 0 <= c < pe.channels ==>
      StageRow(layout, v, e, pv, pe, r, at, a)[c] == StageRow(layout, v, e, pv, pe, r, at, b)[c];
  }

  lemma SameStage(layout: StatisticLayout, to: Cell, from: Cell, a: Stage, b: Stage)
    requires Shaped(layout, to) && Shaped(layout, from) && a.spread == b.spread
    requires forall k :: 0 <= k < |layout.statistics| && layout.statistics[k] != SumSqDev ==>
               (layout.statistics[k] in a.done <==> layout.statistics[k] in b.done)
    ensures StageOf(layout, to, from, a) == StageOf(layout, to, from, b)
  {}

  lemma NoSpreadStage(layout: StatisticLayout, v: seq<Double>, e: Extent, pv: seq<Double>, pe: Extent, r: nat, at: nat)
    requires layout.Valid() && |v| == e.Size() && |pv| == pe.Size() && e.stored == pe.stored == layout.Stored()
    requires r < e.regions && r < pe.regions && at + pe.channels <= e.channels && !layout.Deviations()
    ensures RowRewritten(v, v, e, r, at, StageRow(layout, v, e, pv, pe, r, at, Stage(true, {})))
  {
    var row := StageRow(layout, v, e, pv, pe, r, at, Stage(true, {}));
    forall c | 0 <= c < pe.channels ensures row[c] == CellAt(v, e, r, at + c) {
      FirstStage(layout, CellAt(v, e, r, at + c), CellAt(pv, pe, r, c));
    }
    hide CellAt, StageRow;
  }

  lemma EverySlotDone(layout: StatisticLayout, v: seq<Double>, e: Extent, pv: seq<Double>, pe: Extent, r: nat, at: nat)
    requires layout.Valid() && |v| == e.Size() && |pv| == pe.Size() && e.stored == pe.stored == layout.Stored()
    requires r < e.regions && r < pe.regions && at + pe.channels <= e.channels
    ensures StageRow(layout, v, e, pv, pe, r, at, Stage(true, Done(layout, |layout.statistics|)))
         == StageRow(layout, v, e, pv, pe, r, at, Stage(true, ALL))
  {
    forall k | 0 <= k < |layout.statistics| ensures layout.statistics[k] in ALL {
      match layout.statistics[k] case _ =>
    }
    SameStages(layout, v, e, pv, pe, r, at, Stage(true, Done(layout, |layout.statistics|)), Stage(true, ALL));
  }

  lemma CellHas(v: seq<Double>, e: Extent, r: nat, c: nat, k: nat)
    requires |v| == e.Size() && r < e.regions && c < e.channels && k < e.stored
    ensures PlaceOf(e.stored, e.channels, r, k, c) < |v|
    ensures CellAt(v, e, r, c)[k] == v[PlaceOf(e.stored, e.channels, r, k, c)]
  {
    PlaceInside(e.regions, e.stored, e.channels, r, k, c);
  }

  // A region's cells from channel `at` on with those of a partial put into them, as far as `stage`.
  ghost function StageRow(layout: StatisticLayout, v: seq<Double>, e: Extent, pv: seq<Double>, pe: Extent, r: nat,
                          at: nat, stage: Stage): (cells: seq<Cell>)
    requires layout.Valid() && |v| == e.Size() && |pv| == pe.Size() && e.stored == pe.stored == layout.Stored()
    requires r < e.regions && r < pe.regions && at + pe.channels <= e.channels
    ensures |cells| == pe.channels
  {
    seq(pe.channels, c requires 0 <= c < pe.channels =>
      StageOf(layout, CellAt(v, e, r, at + c), CellAt(pv, pe, r, c), stage))
  }

  // A cell not rewritten yet, about to take in its spread.
  lemma BeforeSpread(layout: StatisticLayout, v: seq<Double>, v': seq<Double>, e: Extent, pv: seq<Double>, pe: Extent,
                     r: nat, at: nat, c: nat, want: seq<Cell>)
    requires layout.Valid() && |v| == e.Size() && |pv| == pe.Size() && e.stored == pe.stored == layout.Stored()
    requires r < e.regions && r < pe.regions && at + pe.channels <= e.channels && c < pe.channels && layout.Deviations()
    requires want == StageRow(layout, v, e, pv, pe, r, at, Stage(true, {}))
    requires RowRewritten(v, v', e, r, at, want[..c])
    ensures |v'| == e.Size() && at + c < e.channels
    ensures OnlyCell(v', v', e, r, at + c, CellAt(v, e, r, at + c))
    ensures Shaped(layout, CellAt(v, e, r, at + c)) && Shaped(layout, CellAt(pv, pe, r, c))
    ensures want[c] == WithSpread(layout, CellAt(v, e, r, at + c), CellAt(pv, pe, r, c))
  {
    hide *;
    RewrittenFrom(v, v', e, r, at, want[..c]);
    StillOld(v, v', e, r, at, want[..c], at + c);
    Untouched(v', e, r, at + c);
    SpreadStageAt(layout, v, e, pv, pe, r, at, c);
  }

  lemma SpreadStageAt(layout: StatisticLayout, v: seq<Double>, e: Extent, pv: seq<Double>, pe: Extent, r: nat, at: nat,
                      c: nat)
    requires layout.Valid() && |v| == e.Size() && |pv| == pe.Size() && e.stored == pe.stored == layout.Stored()
    requires r < e.regions && r < pe.regions && at + pe.channels <= e.channels && c < pe.channels && layout.Deviations()
    ensures Shaped(layout, CellAt(v, e, r, at + c)) && Shaped(layout, CellAt(pv, pe, r, c))
    ensures StageRow(layout, v, e, pv, pe, r, at, Stage(true, {}))[c]
         == WithSpread(layout, CellAt(v, e, r, at + c), CellAt(pv, pe, r, c))
  {
    FirstStage(layout, CellAt(v, e, r, at + c), CellAt(pv, pe, r, c));
    hide CellAt, WithSpread, StageOf, Extent.Size, StatisticLayout.Valid;
  }

  lemma OneMoreOf(before: seq<Double>, v: seq<Double>, after: seq<Double>, e: Extent, r: nat, from: nat,
                  want: seq<Cell>, c: nat)
    requires |before| == e.Size() && c < |want| && RowRewritten(before, v, e, r, from, want[..c])
    requires |v| == e.Size() && r < e.regions && from + c < e.channels
    requires OnlyCell(v, after, e, r, from + c, want[c])
    ensures RowRewritten(before, after, e, r, from, want[..c + 1])
  {
    OneMoreRewritten(before, v, after, e, r, from, want[..c], want[c]);
    assert want[..c + 1] == want[..c] + [want[c]];
  }

  lemma RewrittenFrom(before: seq<Double>, after: seq<Double>, e: Extent, r: nat, from: nat, cells: seq<Cell>)
    requires |before| == e.Size() && RowRewritten(before, after, e, r, from, cells)
    ensures |after| == e.Size()
  {}

  lemma RewrittenSize(before: seq<Double>, after: seq<Double>, e: Extent, r: nat, cells: seq<Cell>)
    requires |before| == e.Size() && RowRewritten(before, after, e, r, 0, cells)
    ensures |after| == e.Size()
  {}

  // `after` is `before` with the cells of region r from channel `from` on replaced by `cells`.
  ghost predicate RowRewritten(before: seq<Double>, after: seq<Double>, e: Extent, r: nat, from: nat, cells: seq<Cell>)
    requires |before| == e.Size()
  {
    && |after| == e.Size()
    && forall r': nat, c': nat :: r' < e.regions && c' < e.channels ==>
         CellAt(after, e, r', c')
         == if r' == r && from <= c' < from + |cells| then cells[c' - from] else CellAt(before, e, r', c')
  }

  lemma NothingRewritten(v: seq<Double>, e: Extent, r: nat, from: nat)
    requires |v| == e.Size()
    ensures RowRewritten(v, v, e, r, from, [])
  {}

  lemma StillOld(before: seq<Double>, after: seq<Double>, e: Extent, r: nat, from: nat, cells: seq<Cell>, c: nat)
    requires |before| == e.Size() && RowRewritten(before, after, e, r, from, cells)
    requires r < e.regions && c < e.channels && c >= from + |cells|
    ensures |after| == e.Size() && CellAt(after, e, r, c) == CellAt(before, e, r, c)
  {}

  lemma Untouched(v: seq<Double>, e: Extent, r: nat, c: nat)
    requires |v| == e.Size() && r < e.regions && c < e.channels
    ensures OnlyCell(v, v, e, r, c, CellAt(v, e, r, c))
  {}

  lemma OneMoreRewritten(before: seq<Double>, v: seq<Double>, after: seq<Double>, e: Extent, r: nat, from: nat,
                         cells: seq<Cell>, cell: Cell)
    requires |before| == e.Size() && RowRewritten(before, v, e, r, from, cells)
    requires |v| == e.Size() && r < e.regions && from + |cells| < e.channels
    requires OnlyCell(v, after, e, r, from + |cells|, cell)
    ensures RowRewritten(before, after, e, r, from, cells + [cell])
  {
    hide CellAt;
  }

  // A cell with one extremum, if the layout has it, at its identity.
  ghost function FilledCell(layout: StatisticLayout, v: seq<Double>, e: Extent, r: nat, c: nat, s: Statistic): Cell
    requires layout.Valid() && |v| == e.Size() && e.stored == layout.Stored() && r < e.regions && c < e.channels
    requires s == Minimum || s == Maximum
  {
    if layout.Has(s) then
      layout.SlotIs(s, s);
      CellAt(v, e, r, c)[layout.Slot(s) := Identity(s)]
    else CellAt(v, e, r, c)
  }

  ghost function FilledRow(layout: StatisticLayout, v: seq<Double>, e: Extent, r: nat, s: Statistic): (cells: seq<Cell>)
    requires layout.Valid() && |v| == e.Size() && e.stored == layout.Stored() && r < e.regions
    requires s == Minimum || s == Maximum
    ensures |cells| == e.channels
  {
    seq(e.channels, c requires 0 <= c < e.channels => FilledCell(layout, v, e, r, c, s))
  }

  // A cell of nothing.
  ghost function FreshCell(layout: StatisticLayout): Cell
    requires layout.Valid()
  {
    seq(layout.Stored(), k requires 0 <= k < layout.Stored() =>
      if k < |layout.statistics| && (layout.statistics[k] == Minimum || layout.statistics[k] == Maximum)
      then Identity(layout.statistics[k]) else Finite(0.0))
  }

  ghost predicate FreshBelow(layout: StatisticLayout, e: Extent, v: seq<Double>, n: nat)
    requires layout.Valid() && |v| == e.Size()
  {
    && e.stored == layout.Stored()
    && forall r: nat, c: nat :: r < e.regions && c < e.channels ==>
         CellAt(v, e, r, c) == if r < n then FreshCell(layout) else seq(e.stored, _ => Finite(0.0))
  }

  lemma AllZero(v: seq<Double>, e: Extent)
    requires v == seq(e.Size(), _ => Finite(0.0))
    ensures forall r: nat, c: nat :: r < e.regions && c < e.channels ==>
              CellAt(v, e, r, c) == seq(e.stored, _ => Finite(0.0))
  {
    forall r: nat, c: nat | r < e.regions && c < e.channels
      ensures CellAt(v, e, r, c) == seq(e.stored, _ => Finite(0.0))
    {
      forall k | 0 <= k < e.stored ensures CellAt(v, e, r, c)[k] == Finite(0.0) {
        PlaceInside(e.regions, e.stored, e.channels, r, k, c);
      }
    }
  }

  lemma NoneFresh(layout: StatisticLayout, e: Extent, v: seq<Double>, regionStride: nat)
    requires layout.Valid() && e.stored == layout.Stored() && regionStride == e.stored * e.channels
    requires v == seq(e.regions * regionStride, _ => Finite(0.0))
    ensures |v| == e.Size() && FreshBelow(layout, e, v, 0)
  {
    AllZero(v, e);
    hide CellAt;
  }

  lemma ZeroFilled(layout: StatisticLayout, zero: Cell)
    requires layout.Valid() && zero == seq(layout.Stored(), _ => Finite(0.0))
    ensures var one := if layout.Has(Minimum) then zero[layout.Slot(Minimum) := PosInf] else zero;
            var two := if layout.Has(Maximum) then one[layout.Slot(Maximum) := NegInf] else one;
            two == FreshCell(layout)
  {
    if layout.Has(Minimum) { layout.SlotIs(Minimum, Minimum); }
    if layout.Has(Maximum) { layout.SlotIs(Maximum, Maximum); }
  }

  lemma RegionFresh(layout: StatisticLayout, e: Extent, v: seq<Double>, v1: seq<Double>, v2: seq<Double>, r: nat)
    requires layout.Valid() && |v| == e.Size() && FreshBelow(layout, e, v, r) && r < e.regions
    requires RowRewritten(v, v1, e, r, 0, FilledRow(layout, v, e, r, Minimum))
    requires |v1| == e.Size()
    requires RowRewritten(v1, v2, e, r, 0, FilledRow(layout, v1, e, r, Maximum))
    ensures |v2| == e.Size() && FreshBelow(layout, e, v2, r + 1)
  {
    ZeroFilled(layout, seq(layout.Stored(), _ => Finite(0.0)));
    hide CellAt, FreshCell, StatisticLayout.Valid, Extent.Size;
  }

  lemma AllFresh(layout: StatisticLayout, e: Extent, v: seq<Double>, contents: seq<seq<Totals>>)
    requires layout.Valid() && |v| == e.Size() && FreshBelow(layout, e, v, e.regions)
    requires contents == seq(e.regions, r => seq(e.channels, c => Nothing))
    ensures AllShow(layout, e, v, contents)
  {
    FreshShowsNothing(layout, FreshCell(layout));
    hide CellAt, FreshCell, StatisticLayout.Valid, Extent.Size, Statistics.Shows;
  }

  lemma EveryStatistic(done: set<Statistic>)
    requires done == {} + {NumPixels} + {NanCount} + {Sum} + {SumSq} + {Minimum} + {Maximum}
    ensures done == ALL - {SumSqDev}
  {}

  // What a fold starts from: the cell as it is, and the row as the cell it would be.
  lemma BeforeFold(layout: StatisticLayout, e: Extent, values: seq<Double>, contents: seq<seq<Totals>>, r: nat, c: nat,
                   row: RowTotals, t: Totals)
    requires AllShow(layout, e, values, contents) && r < e.regions && c < e.channels
    requires RowShows(row, t, layout.Deviations())
    ensures layout.Valid() && |values| == e.Size() && |contents| == e.regions && |contents[r]| == e.channels
    ensures Proper(t)
    ensures Shaped(layout, CellAt(values, e, r, c)) && Shaped(layout, RowCell(layout, row))
    ensures Statistics.Shows(layout, RowCell(layout, row), t)
    ensures OnlyCell(values, values, e, r, c, CellAt(values, e, r, c))
    ensures var cell, from := CellAt(values, e, r, c), RowCell(layout, row);
            if layout.Deviations() then
              && StageOf(layout, cell, from, Stage(true, {})) == WithSpread(layout, cell, from)
              && SpreadOf(layout, from) == Spread(row.good, row.base, row.offset, row.sumSqDev)
            else StageOf(layout, cell, from, Stage(true, {})) == cell
  {
    RowCellShows(layout, row, t);
    FirstStage(layout, CellAt(values, e, r, c), RowCell(layout, row));
    hide CellAt, Statistics.Shows, RowShows, StageOf, WithSpread;
  }

  lemma CellFolded(layout: StatisticLayout, e: Extent, before: seq<Double>, values: seq<Double>,
                   contents: seq<seq<Totals>>, r: nat, c: nat, cell: Cell, from: Cell, t: Totals)
    requires AllShow(layout, e, before, contents) && r < e.regions && c < e.channels
    requires cell == CellAt(before, e, r, c) && Statistics.Shows(layout, from, t) && Proper(t)
    requires OnlyCell(before, values, e, r, c, StageOf(layout, cell, from, Stage(true, ALL - {SumSqDev})))
    ensures AllShow(layout, e, values, contents[r := contents[r][c := contents[r][c].Plus(t)]])
  {
    DeviationsNeedNoStage(layout, cell, from, true, ALL - {SumSqDev});
    assert ALL - {SumSqDev} + {SumSqDev} == ALL;
    LastStagePutsTogether(layout, cell, from);
    PutTogetherShowsPlus(layout, cell, from, StageOf(layout, cell, from, Stage(true, ALL)), contents[r][c], t);
    hide Statistics.Shows, Proper, StageOf, CellAt, Totals.Plus;
  }

}
