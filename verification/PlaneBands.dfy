// A plane cut into bands that each fit a read: SampledRange and SlabWalk::OverBands, src/reduce/pass.h, and
// the part of PlanPass, src/reduce/pass.cc, that sizes them.

module PlaneBands {
  import opened Footprints
  import opened Passes
  import B = ChunkBlocks

  // ---- Planning ----

  // The plan of a pass over planes already checked. Sizes that can be nothing in the metadata are
  // taken as one; what a chunk costs to decode and what a read may spend are given.
  function PlanPass(uLength: nat, vLength: nat, chunkU: nat, chunkV: nat, chunkDepth: nat, chunkBytes: nat, budget: nat,
                    start: nat, count: nat, stride: nat, sample: nat): (plan: PassPlan)
    requires count > 0 && stride > 0
  {
    var cu, cv, depth, s := B.Max(1, chunkU), B.Max(1, chunkV), B.Max(1, chunkDepth), B.Max(1, sample);
    var rowChunks := B.Max(1, B.ChunksTouched(0, B.Samples(uLength, s), s, cu));
    var columnChunks := B.Max(1, B.ChunksTouched(0, B.Samples(vLength, s), s, cv));
    var plan := PassPlan(uLength, vLength, cu, cv, chunkBytes, budget, 1, B.Max(1, rowChunks * columnChunks),
                         start, count, stride, s, depth, B.CeilDiv(depth, stride));
    plan.(bandRows := plan.UnitsAffordable(rowChunks))
  }

  // What a walk over the plane needs of its plan: the layer is what the bands add up to.
  lemma PlanPassIs(uLength: nat, vLength: nat, chunkU: nat, chunkV: nat, chunkDepth: nat, chunkBytes: nat, budget: nat,
                   start: nat, count: nat, stride: nat, sample: nat)
    requires count > 0 && stride > 0
    ensures var plan := PlanPass(uLength, vLength, chunkU, chunkV, chunkDepth, chunkBytes, budget, start, count, stride,
                                 sample);
            && plan.Valid() && Bandable(plan)
            && (uLength > 0 && vLength > 0 ==> plan.layerChunks == RowChunks(plan) * ColumnChunks(plan))
  {
    var plan := PlanPass(uLength, vLength, chunkU, chunkV, chunkDepth, chunkBytes, budget, start, count, stride,
                         sample);
    B.SampledIsTouched(uLength, plan.chunkU, plan.sample);
    B.SampledIsTouched(vLength, plan.chunkV, plan.sample);
    if uLength > 0 { B.TouchedAtLeastOne(0, B.Samples(uLength, plan.sample), plan.sample, plan.chunkU); }
    if vLength > 0 { B.TouchedAtLeastOne(0, B.Samples(vLength, plan.sample), plan.sample, plan.chunkV); }
    hide B.ChunksTouched, B.SampledCount, B.Samples, B.UnitsAffordable, B.CeilDiv;
    if uLength > 0 && vLength > 0 { B.MulMono(1, RowChunks(plan), ColumnChunks(plan)); }
  }

  ghost predicate Bandable(plan: PassPlan)
    requires plan.chunkU > 0 && plan.sample > 0
  {
    && plan.bandRows >= 1
    && plan.bandRows * B.Max(1, RowChunks(plan)) <= B.Max(plan.ChunksPerRead(), B.Max(1, RowChunks(plan)))
  }

  // How many chunks of a row of them the sample has a pixel in; and how many of a column.
  function RowChunks(plan: PassPlan): nat
    requires plan.chunkU > 0 && plan.sample > 0
  {
    B.SampledCount(plan.uLength, plan.chunkU, plan.sample)
  }

  function ColumnChunks(plan: PassPlan): nat
    requires plan.chunkV > 0 && plan.sample > 0
  {
    B.SampledCount(plan.vLength, plan.chunkV, plan.sample)
  }

  // ---- Samples ----

  // The samples that fall in [begin, end): a start and a count.
  function SampledRange(begin: nat, end: nat, stride: nat): (nat, nat)
    requires stride > 0
  {
    var first, last := B.CeilDiv(begin, stride), B.CeilDiv(end, stride);
    (first * stride, if last > first then last - first else 0)
  }

  lemma SampledRangeIs(begin: nat, end: nat, stride: nat, i: nat)
    requires stride > 0
    ensures var (start, count) := SampledRange(begin, end, stride);
            start % stride == 0 && (start / stride <= i < start / stride + count <==> begin <= i * stride < end)
  {
    B.CeilDivIs(begin, stride, i);
    B.CeilDivIs(end, stride, i);
    B.DivMod(B.CeilDiv(begin, stride), 0, stride);
  }

  // A footprint takes sample i of the u axis and j of the v axis.
  predicate Takes(f: SlabFootprint, sample: nat, i: nat, j: nat)
    requires sample > 0
  {
    && f.uStart / sample <= i < f.uStart / sample + f.uCount
    && f.vStart / sample <= j < f.vStart / sample + f.vCount
  }

  // How many of the footprints take it.
  ghost function Takers(fs: seq<SlabFootprint>, sample: nat, i: nat, j: nat): nat
    requires sample > 0
  {
    if fs == [] then 0
    else Takers(fs[..|fs| - 1], sample, i, j) + if Takes(fs[|fs| - 1], sample, i, j) then 1 else 0
  }

  // The sample is a pixel of the plane.
  predicate OnPlane(plan: PassPlan, i: nat, j: nat) {
    i * plan.sample < plan.uLength && j * plan.sample < plan.vLength
  }

  // What one footprint of the plane promises.
  ghost predicate WellBanded(f: SlabFootprint, plan: PassPlan) {
    && f.uStride == f.vStride == plan.sample > 0
    && f.uStart % plan.sample == 0 && f.vStart % plan.sample == 0
    && 1 <= f.chunks <= B.Max(1, plan.ChunksPerRead())
    && (forall i: nat, j: nat :: Takes(f, plan.sample, i, j) ==> OnPlane(plan, i, j))
  }

  // The samples whose chunk row has rank below `row`, and in the chunk row `row` and the ones of its
  // band whose chunk column has rank below `column`, are each taken once; no other is taken.
  ghost predicate BandedTo(fs: seq<SlabFootprint>, plan: PassPlan, row: nat, band: nat, column: nat)
    requires plan.Valid()
  {
    && (forall k :: 0 <= k < |fs| ==> WellBanded(fs[k], plan))
    && LayerOf(fs) == row * RowChunks(plan) + band * column
    && forall i: nat, j: nat ::
         Takers(fs, plan.sample, i, j)
         == if OnPlane(plan, i, j) && (RankV(plan, j) < row || (RankV(plan, j) < row + band && RankU(plan, i) < column))
            then 1 else 0
  }

  ghost function RankU(plan: PassPlan, i: nat): nat
    requires plan.Valid()
  {
    B.RankOf(i, plan.chunkU, plan.sample)
  }

  ghost function RankV(plan: PassPlan, j: nat): nat
    requires plan.Valid()
  {
    B.RankOf(j, plan.chunkV, plan.sample)
  }

  // The pixels of the chunks from the first-th to the last-th the sample has a pixel in, along one axis.
  function Stretch(first: nat, last: nat, length: nat, chunk: nat, sample: nat): (nat, nat)
    requires chunk > 0 && sample > 0
  {
    SampledRange(B.SampledAt(first, chunk, sample) * chunk,
                 B.Min(length, (B.SampledAt(last, chunk, sample) + 1) * chunk), sample)
  }

  lemma StretchIs(first: nat, last: nat, length: nat, chunk: nat, sample: nat, i: nat)
    requires chunk > 0 && sample > 0 && first <= last
    ensures var (start, count) := Stretch(first, last, length, chunk, sample);
            && start % sample == 0
            && (start / sample <= i < start / sample + count
                <==> i * sample < length && first <= B.RankOf(i, chunk, sample) <= last)
  {
    SampledRangeIs(B.SampledAt(first, chunk, sample) * chunk,
                   B.Min(length, (B.SampledAt(last, chunk, sample) + 1) * chunk), sample, i);
    if i * sample < length { B.RanksBetween(i, length, first, last, chunk, sample); }
  }

  // A segment of a band is read within the budget.
  lemma SegmentFits(plan: PassPlan, bandRows: nat, width: nat)
    requires plan.Valid() && 1 <= bandRows <= plan.bandRows && 1 <= width <= plan.UnitsAffordable(bandRows)
    requires Bandable(plan)
    ensures 1 <= width * bandRows <= B.Max(1, plan.ChunksPerRead())
  {
    B.MulMono(width, plan.UnitsAffordable(bandRows), bandRows);
    B.MulMono(1, width, bandRows);
    if bandRows > 1 {
      B.MulMono(2, plan.bandRows, B.Max(1, RowChunks(plan)));
      B.MulMono(1, B.Max(1, RowChunks(plan)), plan.bandRows);
    }
  }

  lemma OneMoreSegment(fs: seq<SlabFootprint>, plan: PassPlan, row: nat, band: nat, column: nat, width: nat,
                       segment: SlabFootprint)
    requires plan.Valid() && BandedTo(fs, plan, row, band, column) && band >= 1 && width >= 1
    requires segment.uStride == segment.vStride == plan.sample && segment.chunks == width * band
    requires 1 <= segment.chunks <= B.Max(1, plan.ChunksPerRead())
    requires (segment.uStart, segment.uCount)
         == Stretch(column, column + width - 1, plan.uLength, plan.chunkU, plan.sample)
    requires (segment.vStart, segment.vCount) == Stretch(row, row + band - 1, plan.vLength, plan.chunkV, plan.sample)
    ensures BandedTo(fs + [segment], plan, row, band, column + width)
  {
    var more := fs + [segment];
    assert more[..|fs|] == fs;
    StretchIs(column, column + width - 1, plan.uLength, plan.chunkU, plan.sample, 0);
    StretchIs(row, row + band - 1, plan.vLength, plan.chunkV, plan.sample, 0);
    hide Stretch, B.RankOf, PassPlan.ChunksPerRead, OnPlane;
    forall i: nat, j: nat
      ensures Takes(segment, plan.sample, i, j)
         <==> OnPlane(plan, i, j) && row <= RankV(plan, j) < row + band && column <= RankU(plan, i) < column + width
    {
      SegmentTakes(plan, row, band, column, width, segment, i, j);
    }
    assert band * (column + width) == band * column + width * band;
    hide Takes, RankU, RankV, RowChunks;
  }

  lemma SegmentTakes(plan: PassPlan, row: nat, band: nat, column: nat, width: nat, segment: SlabFootprint, i: nat,
                     j: nat)
    requires plan.Valid() && band >= 1 && width >= 1
    requires (segment.uStart, segment.uCount)
         == Stretch(column, column + width - 1, plan.uLength, plan.chunkU, plan.sample)
    requires (segment.vStart, segment.vCount) == Stretch(row, row + band - 1, plan.vLength, plan.chunkV, plan.sample)
    ensures Takes(segment, plan.sample, i, j)
       <==> OnPlane(plan, i, j) && row <= RankV(plan, j) < row + band && column <= RankU(plan, i) < column + width
  {
    StretchIs(column, column + width - 1, plan.uLength, plan.chunkU, plan.sample, i);
    StretchIs(row, row + band - 1, plan.vLength, plan.chunkV, plan.sample, j);
    hide Stretch, B.RankOf;
  }

  // A band read to its last column is the next band's start.
  lemma NextBand(fs: seq<SlabFootprint>, plan: PassPlan, row: nat, band: nat)
    requires plan.Valid() && BandedTo(fs, plan, row, band, RowChunks(plan))
    ensures BandedTo(fs, plan, row + band, 0, 0)
  {
    hide Takes, B.RankOf;
    forall i: nat, j: nat ensures OnPlane(plan, i, j) ==> RankU(plan, i) < RowChunks(plan) {
      if OnPlane(plan, i, j) { B.RankInside(i, plan.uLength, plan.chunkU, plan.sample); }
    }
    assert row * RowChunks(plan) + band * RowChunks(plan) == (row + band) * RowChunks(plan);
  }

  // The plane's bands: every sampled pixel is in exactly one, no other pixel is in any, each fits a
  // read, and their chunks are the layer's.
  method Bands(plan: PassPlan) returns (fs: seq<SlabFootprint>)
    requires plan.Valid() && Bandable(plan)
    ensures forall k :: 0 <= k < |fs| ==> WellBanded(fs[k], plan)
    ensures forall i: nat, j: nat :: Takers(fs, plan.sample, i, j) == if OnPlane(plan, i, j) then 1 else 0
    ensures LayerOf(fs) == RowChunks(plan) * ColumnChunks(plan)
  {
    hide *;
    PlanMeans(plan);
    var rows, columns := ColumnChunks(plan), RowChunks(plan);
    fs := [];
    NoBands(plan);
    var row := 0;
    while row < rows
      invariant row <= rows && BandedTo(fs, plan, row, 0, 0)
      decreases rows - row
    {
      var bandRows := Least(plan.bandRows, rows - row);
      var (vStart, vCount) := Stretch(row, row + bandRows - 1, plan.vLength, plan.chunkV, plan.sample);
      NoColumns(fs, plan, row, bandRows);
      var segmentChunks := plan.UnitsAffordable(bandRows);
      var column := 0;
      while column < columns
        invariant column <= columns && BandedTo(fs, plan, row, bandRows, column)
        decreases columns - column
      {
        var width := Least(segmentChunks, columns - column);
        var (uStart, uCount) := Stretch(column, column + width - 1, plan.uLength, plan.chunkU, plan.sample);
        var segment := SlabFootprint(uStart, uCount, plan.sample, vStart, vCount, plan.sample, width * bandRows);
        SegmentFits(plan, bandRows, width);
        OneMoreSegment(fs, plan, row, bandRows, column, width, segment);
        fs := fs + [segment];
        column := column + width;
      }
      NextBand(fs, plan, row, bandRows);
      row := row + bandRows;
    }
    AllBands(fs, plan);
  }

  function Least(a: nat, b: nat): (c: nat)
    ensures c <= a && c <= b && (c == a || c == b)
  {
    B.Min(a, b)
  }

  lemma PlanMeans(plan: PassPlan)
    requires plan.Valid() && Bandable(plan)
    ensures plan.chunkU > 0 && plan.chunkV > 0 && plan.sample > 0 && plan.bandRows >= 1
  {}

  lemma NoBands(plan: PassPlan)
    requires plan.Valid()
    ensures BandedTo([], plan, 0, 0, 0)
  {}

  lemma NoColumns(fs: seq<SlabFootprint>, plan: PassPlan, row: nat, band: nat)
    requires plan.Valid() && BandedTo(fs, plan, row, 0, 0)
    ensures BandedTo(fs, plan, row, band, 0)
  {
    hide Takes, B.RankOf, RankU, RankV;
  }

  lemma AllBands(fs: seq<SlabFootprint>, plan: PassPlan)
    requires plan.Valid() && BandedTo(fs, plan, ColumnChunks(plan), 0, 0)
    ensures forall k :: 0 <= k < |fs| ==> WellBanded(fs[k], plan)
    ensures forall i: nat, j: nat :: Takers(fs, plan.sample, i, j) == if OnPlane(plan, i, j) then 1 else 0
    ensures LayerOf(fs) == RowChunks(plan) * ColumnChunks(plan)
  {
    hide Takes, B.RankOf;
    forall i: nat, j: nat ensures OnPlane(plan, i, j) ==> RankV(plan, j) < ColumnChunks(plan) {
      if OnPlane(plan, i, j) { B.RankInside(j, plan.vLength, plan.chunkV, plan.sample); }
    }
    assert ColumnChunks(plan) * RowChunks(plan) == RowChunks(plan) * ColumnChunks(plan);
  }
}
