// What a reduction reads: Occupancy::Footprints, src/reduce/occupancy.cc.

module Footprints {
  import opened Regions
  import opened CellScan
  import opened Occupancies
  import B = ChunkBlocks

  // What the walk is handed, in pixels; `chunks` is what it occupies in one spectral layer.
  datatype SlabFootprint = SlabFootprint(
    uStart: nat, uCount: nat, uStride: nat, vStart: nat, vCount: nat, vStride: nat, chunks: nat)

  // The k-th of every stride-th element from a start.
  function Along(start: nat, k: nat, stride: nat): nat { start + k * stride }

  // The same rectangle in chunk cells, half-open.
  datatype OccupiedFootprint = OccupiedFootprint(
    slab: SlabFootprint, cuBegin: nat, cuEnd: nat, cvBegin: nat, cvEnd: nat)

  predicate Holds(f: OccupiedFootprint, cu: nat, cv: nat) {
    f.cuBegin <= cu < f.cuEnd && f.cvBegin <= cv < f.cvEnd
  }

  // How many of the footprints hold a chunk cell.
  ghost function Holders(fs: seq<OccupiedFootprint>, cu: nat, cv: nat): nat {
    if fs == [] then 0
    else Holders(fs[..|fs| - 1], cu, cv) + if Holds(fs[|fs| - 1], cu, cv) then 1 else 0
  }

  function ChunksOf(fs: seq<OccupiedFootprint>): nat {
    if fs == [] then 0 else ChunksOf(fs[..|fs| - 1]) + fs[|fs| - 1].slab.chunks
  }

  lemma {:induction false} Appended(a: seq<OccupiedFootprint>, b: seq<OccupiedFootprint>)
    ensures forall cu: nat, cv: nat :: Holders(a + b, cu, cv) == Holders(a, cu, cv) + Holders(b, cu, cv)
    ensures ChunksOf(a + b) == ChunksOf(a) + ChunksOf(b)
    decreases |b|
  {
    if b == [] {
      assert a + b == a;
    } else {
      assert (a + b)[..|a + b| - 1] == a + b[..|b| - 1];
      Appended(a, b[..|b| - 1]);
    }
  }

  // One holder at most means no two footprints hold the same cell.
  lemma {:induction false} TwoHolders(fs: seq<OccupiedFootprint>, i: nat, j: nat, cu: nat, cv: nat)
    requires i < j < |fs| && Holds(fs[i], cu, cv) && Holds(fs[j], cu, cv)
    ensures Holders(fs, cu, cv) >= 2
    decreases |fs|
  {
    var l := |fs| - 1;
    if j == l { OneHolder(fs[..l], i, cu, cv); } else { TwoHolders(fs[..l], i, j, cu, cv); }
  }

  lemma {:induction false} OneHolder(fs: seq<OccupiedFootprint>, i: nat, cu: nat, cv: nat)
    requires i < |fs| && Holds(fs[i], cu, cv)
    ensures Holders(fs, cu, cv) >= 1
    decreases |fs|
  {
    if i < |fs| - 1 { OneHolder(fs[..|fs| - 1], i, cu, cv); }
  }

  lemma {:induction false} AHolder(fs: seq<OccupiedFootprint>, cu: nat, cv: nat) returns (i: nat)
    requires Holders(fs, cu, cv) >= 1
    ensures i < |fs| && Holds(fs[i], cu, cv)
    decreases |fs|
  {
    if Holds(fs[|fs| - 1], cu, cv) { i := |fs| - 1; } else { i := AHolder(fs[..|fs| - 1], cu, cv); }
  }

  // ---- What one footprint promises ----

  // A footprint clamped to the regions' own pixels, counting the chunks it spans, no more of them
  // than a read affords.
  ghost predicate WellCut(f: OccupiedFootprint, o: Occupancy, chunksPerRead: nat) {
    && f.cuBegin < f.cuEnd && f.cvBegin < f.cvEnd
    && o.grid.cu0 <= f.cuBegin && f.cuEnd <= o.grid.cu0 + o.grid.columns && o.grid.cv0 <= f.cvBegin
    && f.slab.uStride == 1 && f.slab.vStride == 1
    && f.slab.uCount > 0 && f.slab.vCount > 0
    && f.slab.uStart == B.Max(o.box.u0, f.cuBegin * o.grid.chunkU)
    && f.slab.uStart + f.slab.uCount == B.Min(o.box.u1, f.cuEnd * o.grid.chunkU)
    && f.slab.vStart == B.Max(o.box.v0, f.cvBegin * o.grid.chunkV)
    && f.slab.vStart + f.slab.vCount == B.Min(o.box.v1, f.cvEnd * o.grid.chunkV)
    && f.slab.chunks == (f.cuEnd - f.cuBegin) * (f.cvEnd - f.cvBegin)
    && 1 <= f.slab.chunks <= B.Max(1, chunksPerRead)
  }

  ghost predicate AllWellCut(fs: seq<OccupiedFootprint>, o: Occupancy, chunksPerRead: nat) {
    forall i :: 0 <= i < |fs| ==> WellCut(fs[i], o, chunksPerRead)
  }

  // The rows [row, rowEnd) of the grid with the columns one way or another taken.
  ghost predicate InBand(o: Occupancy, row: nat, rowEnd: nat, cv: nat) {
    o.grid.cv0 + row <= cv < o.grid.cv0 + rowEnd
  }

  // A stretch of chunks on the axis overlaps the box in at least a pixel.
  lemma Overlaps(lo: nat, hi: nat, begin: nat, end: nat, chunk: nat)
    requires chunk > 0 && lo < hi && begin < end && lo / chunk < end && begin <= (hi - 1) / chunk
    ensures B.Max(lo, begin * chunk) < B.Min(hi, end * chunk)
  {
    B.AtOrPast(end, lo, chunk);
    B.AtOrPast(begin, hi - 1, chunk);
    B.Order(begin, end, chunk);
  }

  // What the grid of a built occupancy is over.
  ghost predicate OverBox(o: Occupancy) {
    o.grid.Valid() && o.box.u0 < o.box.u1 && o.box.v0 < o.box.v1 && IsGridOf(o.grid, o.box)
  }

  // One footprint of a band: columns [first, first + width) of rows [row, rowEnd).
  method OneFootprint(o: Occupancy, row: nat, rowEnd: nat, first: nat, width: nat, ghost chunksPerRead: nat)
    returns (f: OccupiedFootprint)
    requires OverBox(o) && row < rowEnd && width > 0 && first + width <= o.grid.columns
    requires rowEnd <= RowsOf(o.box, o.grid.chunkV)
    requires 1 <= width * (rowEnd - row) <= B.Max(1, chunksPerRead)
    ensures WellCut(f, o, chunksPerRead) && f.slab.chunks == width * (rowEnd - row)
    ensures f.cuBegin == o.grid.cu0 + first && f.cuEnd == f.cuBegin + width
    ensures f.cvBegin == o.grid.cv0 + row && f.cvEnd == o.grid.cv0 + rowEnd
  {
    OneGrid(o.grid, o.box);
    hide IsGridOf;
    var cvBegin, cvEnd := o.grid.cv0 + row, o.grid.cv0 + rowEnd;
    var cuBegin := o.grid.cu0 + first;
    var cuEnd := cuBegin + width;
    Overlaps(o.box.u0, o.box.u1, cuBegin, cuEnd, o.grid.chunkU);
    Overlaps(o.box.v0, o.box.v1, cvBegin, cvEnd, o.grid.chunkV);
    var vBegin := B.Max(o.box.v0, cvBegin * o.grid.chunkV);
    var vEnd := B.Min(o.box.v1, cvEnd * o.grid.chunkV);
    var uBegin := B.Max(o.box.u0, cuBegin * o.grid.chunkU);
    var uEnd := B.Min(o.box.u1, cuEnd * o.grid.chunkU);
    f := OccupiedFootprint(
      SlabFootprint(uBegin, uEnd - uBegin, 1, vBegin, vEnd - vBegin, 1, width * (rowEnd - row)),
      cuBegin, cuEnd, cvBegin, cvEnd);
  }

  // ---- One run, one band, every row ----

  // The footprints hold each of the run's columns below `first` once, over the band, and no other.
  ghost predicate RunCut(o: Occupancy, row: nat, rowEnd: nat, run: ColumnRun, first: nat, fs: seq<OccupiedFootprint>) {
    forall cu: nat, cv: nat ::
      Holders(fs, cu, cv)
      == if InBand(o, row, rowEnd, cv) && o.grid.cu0 + run.first <= cu < o.grid.cu0 + first then 1 else 0
  }

  lemma OneMoreSegment(o: Occupancy, row: nat, rowEnd: nat, run: ColumnRun, first: nat, fs: seq<OccupiedFootprint>,
                       f: OccupiedFootprint)
    requires RunCut(o, row, rowEnd, run, first, fs) && run.first <= first
    requires f.cuBegin == o.grid.cu0 + first && f.cuBegin < f.cuEnd
    requires f.cvBegin == o.grid.cv0 + row && f.cvEnd == o.grid.cv0 + rowEnd
    ensures RunCut(o, row, rowEnd, run, first + (f.cuEnd - f.cuBegin), fs + [f])
  {
    assert (fs + [f])[..|fs|] == fs;
  }

  // The segments of one run, none more than `limit` cells wide, left to right.
  method CutRun(o: Occupancy, row: nat, rowEnd: nat, run: ColumnRun, limit: nat, ghost chunksPerRead: nat)
    returns (fs: seq<OccupiedFootprint>)
    requires OverBox(o) && row < rowEnd <= RowsOf(o.box, o.grid.chunkV)
    requires run.first <= run.last < o.grid.columns && limit >= 1
    requires limit * (rowEnd - row) <= B.Max(1, chunksPerRead)
    ensures RunCut(o, row, rowEnd, run, run.last + 1, fs) && AllWellCut(fs, o, chunksPerRead)
    ensures ChunksOf(fs) == (run.last - run.first + 1) * (rowEnd - row)
  {
    fs := [];
    hide WellCut, OverBox, RunCut;
    var first := run.first;
    NothingCut(o, row, rowEnd, run);
    while first <= run.last
      invariant run.first <= first <= run.last + 1
      invariant RunCut(o, row, rowEnd, run, first, fs) && AllWellCut(fs, o, chunksPerRead)
      invariant ChunksOf(fs) == (first - run.first) * (rowEnd - row)
    {
      var width := B.Min(limit, run.last - first + 1);
      B.MulMono(1, width, rowEnd - row);
      B.MulMono(width, limit, rowEnd - row);
      var f := OneFootprint(o, row, rowEnd, first, width, chunksPerRead);
      OneMoreSegment(o, row, rowEnd, run, first, fs, f);
      assert (fs + [f])[..|fs|] == fs;
      assert (first + width - run.first) * (rowEnd - row)
          == (first - run.first) * (rowEnd - row) + width * (rowEnd - row);
      fs := fs + [f];
      first := first + width;
    }
  }

  lemma NothingCut(o: Occupancy, row: nat, rowEnd: nat, run: ColumnRun)
    ensures RunCut(o, row, rowEnd, run, run.first, [])
  {}

  // The footprints hold each column of the first n runs once, over the band, and no other.
  ghost predicate BandCut(o: Occupancy, row: nat, rowEnd: nat, runs: seq<ColumnRun>, n: nat, fs: seq<OccupiedFootprint>)
    requires n <= |runs|
  {
    forall cu: nat, cv: nat ::
      Holders(fs, cu, cv)
      == if InBand(o, row, rowEnd, cv) && cu >= o.grid.cu0 && InColumns(runs[..n], cu - o.grid.cu0) then 1 else 0
  }

  lemma OneMoreRun(o: Occupancy, row: nat, rowEnd: nat, runs: seq<ColumnRun>, n: nat, fs: seq<OccupiedFootprint>,
                   cut: seq<OccupiedFootprint>)
    requires n < |runs| && RunsApart(runs, o.grid.columns) && BandCut(o, row, rowEnd, runs, n, fs)
    requires RunCut(o, row, rowEnd, runs[n], runs[n].last + 1, cut)
    ensures BandCut(o, row, rowEnd, runs, n + 1, fs + cut)
  {
    Appended(fs, cut);
    forall cu: nat, cv: nat
      ensures Holders(fs + cut, cu, cv)
           == if InBand(o, row, rowEnd, cv) && cu >= o.grid.cu0 && InColumns(runs[..n + 1], cu - o.grid.cu0) then 1
               else 0
    {
      if cu >= o.grid.cu0 { RunsSplit(runs, n, cu - o.grid.cu0, o.grid.columns); }
      hide Holders, InColumns;
    }
  }

  lemma RunsSplit(runs: seq<ColumnRun>, n: nat, c: nat, columns: nat)
    requires n < |runs| && RunsApart(runs, columns)
    ensures InColumns(runs[..n + 1], c) <==> InColumns(runs[..n], c) || runs[n].first <= c <= runs[n].last
    ensures !(InColumns(runs[..n], c) && runs[n].first <= c <= runs[n].last)
  {
    if InColumns(runs[..n], c) {
      var j :| 0 <= j < n && runs[..n][j].first <= c <= runs[..n][j].last;
      assert runs[..n + 1][j] == runs[j];
      assert runs[j].last + 1 < runs[n].first;
    }
    if runs[n].first <= c <= runs[n].last { assert runs[..n + 1][n] == runs[n]; }
    if InColumns(runs[..n + 1], c) {
      var j :| 0 <= j < n + 1 && runs[..n + 1][j].first <= c <= runs[..n + 1][j].last;
      assert j < n ==> runs[..n][j] == runs[j];
    }
  }

  method CutBand(o: Occupancy, row: nat, rowEnd: nat, runs: seq<ColumnRun>, chunksPerRead: nat)
    returns (fs: seq<OccupiedFootprint>)
    requires OverBox(o) && row < rowEnd <= RowsOf(o.box, o.grid.chunkV)
    requires RunsApart(runs, o.grid.columns) && rowEnd - row <= B.Max(1, chunksPerRead)
    ensures BandCut(o, row, rowEnd, runs, |runs|, fs) && AllWellCut(fs, o, chunksPerRead)
    ensures ChunksOf(fs) == RunCells(runs) * (rowEnd - row)
  {
    fs := [];
    NoRunsCut(o, row, rowEnd, runs);
    SegmentsFit(chunksPerRead, rowEnd - row);
    hide WellCut, OverBox, RunCut, BandCut, B.UnitsAffordable;
    var limit := B.UnitsAffordable(chunksPerRead, rowEnd - row);
    for n := 0 to |runs|
      invariant BandCut(o, row, rowEnd, runs, n, fs) && AllWellCut(fs, o, chunksPerRead)
      invariant ChunksOf(fs) == RunCells(runs[..n]) * (rowEnd - row)
    {
      var cut := CutRun(o, row, rowEnd, runs[n], limit, chunksPerRead);
      OneMoreRun(o, row, rowEnd, runs, n, fs, cut);
      Appended(fs, cut);
      assert runs[..n + 1][..n] == runs[..n];
      Distribute(RunCells(runs[..n]), runs[n].last - runs[n].first + 1, rowEnd - row);
      fs := fs + cut;
    }
    assert runs[..|runs|] == runs;
  }

  lemma Distribute(a: int, b: int, c: int)
    ensures (a + b) * c == a * c + b * c
  {}

  lemma NoRunsCut(o: Occupancy, row: nat, rowEnd: nat, runs: seq<ColumnRun>)
    ensures BandCut(o, row, rowEnd, runs, 0, [])
  {}

  // The footprints hold each cell of the first n occupied rows once, and no other.
  ghost predicate RowsCut(o: Occupancy, n: nat, fs: seq<OccupiedFootprint>)
    requires n <= |o.rows|
  {
    forall cu: nat, cv: nat :: Holders(fs, cu, cv) == if CellOf(o, n, cu, cv) then 1 else 0
  }

  ghost predicate CellOf(o: Occupancy, n: nat, cu: nat, cv: nat)
    requires n <= |o.rows|
  {
    cu >= o.grid.cu0 && cv >= o.grid.cv0 && InRows(o.rows[..n], cv - o.grid.cv0, cu - o.grid.cu0)
  }

  // Rows [at, next) are consecutive and occupied alike.
  ghost predicate Band(o: Occupancy, at: nat, next: nat)
    requires at < next <= |o.rows|
  {
    forall i :: at <= i < next ==> o.rows[i].row == o.rows[at].row + (i - at) && o.rows[i].runs == o.rows[at].runs
  }

  lemma BandIsCut(o: Occupancy, at: nat, next: nat, fs: seq<OccupiedFootprint>, cut: seq<OccupiedFootprint>)
    requires at < next <= |o.rows| && Band(o, at, next) && RowsCut(o, at, fs)
    requires RowsApart(o.rows, o.grid.columns)
    requires BandCut(o, o.rows[at].row, o.rows[at].row + (next - at), o.rows[at].runs, |o.rows[at].runs|, cut)
    ensures RowsCut(o, next, fs + cut)
  {
    Appended(fs, cut);
    forall cu: nat, cv: nat
      ensures Holders(fs + cut, cu, cv) == if CellOf(o, next, cu, cv) then 1 else 0
    {
      if cu >= o.grid.cu0 && cv >= o.grid.cv0 {
        assert o.rows[at].runs[..|o.rows[at].runs|] == o.rows[at].runs;
        BandRows(o, at, next, cv - o.grid.cv0, cu - o.grid.cu0);
      }
      hide Holders;
    }
  }

  lemma BandRows(o: Occupancy, at: nat, next: nat, row: nat, column: nat)
    requires at < next <= |o.rows| && Band(o, at, next) && RowsApart(o.rows, o.grid.columns)
    ensures var here := o.rows[at].row <= row < o.rows[at].row + (next - at) && InColumns(o.rows[at].runs, column);
            && (InRows(o.rows[..next], row, column) <==> InRows(o.rows[..at], row, column) || here)
            && !(InRows(o.rows[..at], row, column) && here)
  {
    hide InColumns;
    var here := o.rows[at].row <= row < o.rows[at].row + (next - at) && InColumns(o.rows[at].runs, column);
    if InRows(o.rows[..at], row, column) {
      var i :| 0 <= i < at && o.rows[..at][i].row == row && InColumns(o.rows[..at][i].runs, column);
      assert o.rows[..next][i].row == row && InColumns(o.rows[..next][i].runs, column);
      assert o.rows[i].row < o.rows[at].row;
    }
    if here {
      var i := at + (row - o.rows[at].row);
      assert o.rows[i].row == row;
      assert o.rows[..next][i].row == row && InColumns(o.rows[..next][i].runs, column);
    }
    if InRows(o.rows[..next], row, column) {
      var i :| 0 <= i < next && o.rows[..next][i].row == row && InColumns(o.rows[..next][i].runs, column);
      if i < at { assert o.rows[..at][i].row == row && InColumns(o.rows[..at][i].runs, column); }
      else { assert o.rows[i].row == o.rows[at].row + (i - at); }
    }
  }

  // ---- Every row ----

  method Widest(runs: seq<ColumnRun>) returns (widest: nat)
    requires forall j :: 0 <= j < |runs| ==> runs[j].first <= runs[j].last
    ensures runs != [] ==> widest >= 1
    ensures forall j :: 0 <= j < |runs| ==> runs[j].last - runs[j].first + 1 <= widest
  {
    widest := 0;
    for j := 0 to |runs|
      invariant j > 0 ==> widest >= 1
      invariant forall i :: 0 <= i < j ==> runs[i].last - runs[i].first + 1 <= widest
    {
      widest := B.Max(widest, runs[j].last - runs[j].first + 1);
    }
  }

  // How many rows from `at` on are read together: consecutive, occupied alike, and as many as a
  // read affords at their widest run.
  method BandEnd(o: Occupancy, at: nat, limit: nat) returns (next: nat)
    requires at < |o.rows|
    ensures at < next <= |o.rows| && Band(o, at, next) && (next - at <= limit || next == at + 1)
    ensures next < |o.rows| && next - at < limit ==>
              o.rows[next].row != o.rows[at].row + (next - at) || o.rows[next].runs != o.rows[at].runs
  {
    next := at + 1;
    while next < |o.rows| && o.rows[next].row == o.rows[at].row + (next - at)
          && next - at < limit && o.rows[next].runs == o.rows[at].runs
      invariant at < next <= |o.rows| && Band(o, at, next) && (next - at <= limit || next == at + 1)
    {
      next := next + 1;
    }
  }

  // The segments of a band fit a read.
  lemma BandFits(chunksPerRead: nat, widest: nat, bandRows: nat)
    requires widest >= 1 && (bandRows <= B.UnitsAffordable(chunksPerRead, widest) || bandRows == 1)
    ensures bandRows <= B.Max(1, chunksPerRead)
  {
    B.MulMono(1, widest, B.UnitsAffordable(chunksPerRead, widest));
  }

  lemma SegmentsFit(chunksPerRead: nat, bandRows: nat)
    requires 1 <= bandRows <= B.Max(1, chunksPerRead)
    ensures B.UnitsAffordable(chunksPerRead, bandRows) * bandRows <= B.Max(1, chunksPerRead)
  {}

  // What Footprints needs of the occupancy, all of it promised by Of.
  ghost predicate Cuttable(o: Occupancy) {
    && OverBox(o) && RowsApart(o.rows, o.grid.columns)
    && (forall i :: 0 <= i < |o.rows| ==> o.rows[i].row < RowsOf(o.box, o.grid.chunkV))
    && o.layerChunks == RowCells(o.rows)
  }

  lemma {:induction false} BandCells(o: Occupancy, at: nat, next: nat)
    requires at < next <= |o.rows| && Band(o, at, next)
    ensures RowCells(o.rows[..next]) == RowCells(o.rows[..at]) + RunCells(o.rows[at].runs) * (next - at)
  {
    var runs := o.rows[at].runs;
    assert o.rows[..next][..next - 1] == o.rows[..next - 1];
    assert o.rows[next - 1].runs == runs;
    if next > at + 1 {
      BandCells(o, at, next - 1);
      assert RunCells(runs) * (next - at) == RunCells(runs) * (next - at - 1) + RunCells(runs);
    }
    hide RunCells, Band;
  }

  method CutRows(o: Occupancy, chunksPerRead: nat) returns (fs: seq<OccupiedFootprint>)
    requires Cuttable(o)
    ensures AllWellCut(fs, o, chunksPerRead) && RowsCut(o, |o.rows|, fs) && ChunksOf(fs) == o.layerChunks
  {
    fs := [];
    NoRowsCut(o);
    var at := 0;
    hide *;
    while at < |o.rows|
      invariant at <= |o.rows|
      invariant AllWellCut(fs, o, chunksPerRead) && RowsCut(o, at, fs) && ChunksOf(fs) == RowCells(o.rows[..at])
    {
      RowIsCuttable(o, at);
      var row, runs := o.rows[at].row, o.rows[at].runs;
      var widest := Widest(runs);
      var next := BandEnd(o, at, B.UnitsAffordable(chunksPerRead, widest));
      var bandRows := next - at;
      BandFits(chunksPerRead, widest, bandRows);
      BandOnGrid(o, at, next);
      var cut := CutBand(o, row, row + bandRows, runs, chunksPerRead);
      BandIsCut(o, at, next, fs, cut);
      BandCells(o, at, next);
      BothWellCut(fs, cut, o, chunksPerRead);
      Appended(fs, cut);
      fs := fs + cut;
      at := next;
    }
    assert o.rows[..|o.rows|] == o.rows;
    LayerIs(o);
  }

  lemma LayerIs(o: Occupancy)
    requires Cuttable(o)
    ensures o.layerChunks == RowCells(o.rows)
  {}

  lemma NoRowsCut(o: Occupancy)
    ensures RowsCut(o, 0, []) && AllWellCut([], o, 0) && RowCells(o.rows[..0]) == 0 && ChunksOf([]) == 0
    ensures forall n :: AllWellCut([], o, n)
  {}

  lemma BothWellCut(a: seq<OccupiedFootprint>, b: seq<OccupiedFootprint>, o: Occupancy, chunksPerRead: nat)
    requires AllWellCut(a, o, chunksPerRead) && AllWellCut(b, o, chunksPerRead)
    ensures AllWellCut(a + b, o, chunksPerRead)
  {}

  lemma RowIsCuttable(o: Occupancy, at: nat)
    requires Cuttable(o) && at < |o.rows|
    ensures OverBox(o) && RowsApart(o.rows, o.grid.columns) && RunsApart(o.rows[at].runs, o.grid.columns)
    ensures o.rows[at].runs != []
    ensures forall j :: 0 <= j < |o.rows[at].runs| ==> o.rows[at].runs[j].first <= o.rows[at].runs[j].last
  {}

  lemma BandOnGrid(o: Occupancy, at: nat, next: nat)
    requires Cuttable(o) && at < next <= |o.rows| && Band(o, at, next)
    ensures o.box.v0 < o.box.v1 && o.grid.chunkV > 0
    ensures o.rows[at].row + (next - at) <= RowsOf(o.box, o.grid.chunkV)
  {
    assert o.rows[next - 1].row < RowsOf(o.box, o.grid.chunkV);
  }

  // ---- The cells are the chunks the regions occupy ----

  // What Of promises, as the walk uses it.
  ghost predicate Usable(o: Occupancy) {
    && OverBox(o) && Indexes(o) && RowsHold(o.rows, o.cells, o.grid.columns) && o.layerChunks == |o.cells|
    && (forall i :: 0 <= i < |o.regions| ==> Valid(o.regions[i]) && Within(o.regions[i], o.box))
  }

  lemma BuiltIsUsable(o: Occupancy, given: seq<RegionMask>, chunkU: nat, chunkV: nat, swapSpatial: bool)
    requires Built(o, given, chunkU, chunkV, swapSpatial)
    ensures Usable(o)
  {}

  lemma RegionOnGrid(o: Occupancy, i: nat)
    requires Usable(o) && i < |o.regions|
    ensures OnGrid(o.regions[i], o.grid, RowsOf(o.box, o.grid.chunkV))
  {
    OneGrid(o.grid, o.box);
    hide IsGridOf, OnGrid, GridOf;
    WithinIsOnGrid(o.regions[i], o.box, o.grid.chunkU, o.grid.chunkV);
  }

  // A chunk some region occupies lies on the grid.
  lemma OccupiedOnGrid(o: Occupancy, cu: nat, cv: nat)
    requires Usable(o) && OccupiedChunk(o, cu, cv)
    ensures o.grid.cu0 <= cu < o.grid.cu0 + o.grid.columns
    ensures o.grid.cv0 <= cv < o.grid.cv0 + RowsOf(o.box, o.grid.chunkV)
  {
    var i :| 0 <= i < |o.regions| && Occupies(o.regions[i], o.grid, cu, cv);
    RegionOnGrid(o, i);
    OccupiedUnderBox(o.regions[i], o.grid, cu, cv);
  }

  lemma CellIsChunk(o: Occupancy, cu: nat, cv: nat)
    requires o.grid.Valid() && o.grid.cu0 <= cu < o.grid.cu0 + o.grid.columns && cv >= o.grid.cv0
    ensures Occupied(o.regions, o.grid, o.grid.Cell(cu, cv)) <==> OccupiedChunk(o, cu, cv)
  {
    o.grid.CellIs(cu, cv);
    hide Occupies;
    var n := o.grid.Cell(cu, cv);
    if i :| 0 <= i < |o.regions| && OccupiesCell(o.regions[i], o.grid, n) {
      assert Occupies(o.regions[i], o.grid, cu, cv);
    }
    if i :| 0 <= i < |o.regions| && Occupies(o.regions[i], o.grid, cu, cv) {
      assert OccupiesCell(o.regions[i], o.grid, n);
    }
  }

  lemma CellOfIsOccupied(o: Occupancy, cu: nat, cv: nat)
    requires Usable(o)
    ensures CellOf(o, |o.rows|, cu, cv) <==> OccupiedChunk(o, cu, cv)
  {
    hide InRows, OccupiedChunk, Occupied, RunsApart;
    assert o.rows[..|o.rows|] == o.rows;
    if cu >= o.grid.cu0 && cv >= o.grid.cv0 && InRows(o.rows, cv - o.grid.cv0, cu - o.grid.cu0) {
      InRowsOnGrid(o, cv - o.grid.cv0, cu - o.grid.cu0);
    }
    if OccupiedChunk(o, cu, cv) { OccupiedOnGrid(o, cu, cv); }
    if o.grid.cu0 <= cu < o.grid.cu0 + o.grid.columns && cv >= o.grid.cv0 {
      o.grid.CellIs(cu, cv);
      CellIsChunk(o, cu, cv);
      assert o.grid.Cell(cu, cv) in o.cells <==> InRows(o.rows, cv - o.grid.cv0, cu - o.grid.cu0);
    }
  }

  lemma InRowsOnGrid(o: Occupancy, row: nat, column: nat)
    requires Usable(o) && InRows(o.rows, row, column)
    ensures column < o.grid.columns
  {
    var i :| 0 <= i < |o.rows| && o.rows[i].row == row && InColumns(o.rows[i].runs, column);
    assert RunsApart(o.rows[i].runs, o.grid.columns);
  }

  lemma UsableIsCuttable(o: Occupancy)
    requires Usable(o)
    ensures Cuttable(o)
  {
    forall i | 0 <= i < |o.rows| ensures o.rows[i].row < RowsOf(o.box, o.grid.chunkV) {
      var row, run := o.rows[i].row, o.rows[i].runs[0];
      assert RunsApart(o.rows[i].runs, o.grid.columns);
      assert InColumns(o.rows[i].runs, run.first);
      assert InRows(o.rows, row, run.first);
      var cu, cv := o.grid.cu0 + run.first, o.grid.cv0 + row;
      assert o.rows[..|o.rows|] == o.rows;
      CellOfIsOccupied(o, cu, cv);
      OccupiedOnGrid(o, cu, cv);
    }
  }

  // The footprints of a region set: each occupied chunk is in exactly one of them and no other chunk
  // is in any; each is clamped to the regions and fits a read; and their chunks are the layer's.
  method Footprints(o: Occupancy, chunksPerRead: nat) returns (fs: seq<OccupiedFootprint>)
    requires Usable(o)
    ensures AllWellCut(fs, o, chunksPerRead) && Partitions(fs, o) && ChunksOf(fs) == o.layerChunks
  {
    UsableIsCuttable(o);
    fs := CutRows(o, chunksPerRead);
    hide Usable, CellOf, OccupiedChunk;
    forall cu: nat, cv: nat ensures Holders(fs, cu, cv) == if OccupiedChunk(o, cu, cv) then 1 else 0 {
      CellOfIsOccupied(o, cu, cv);
    }
  }

  ghost predicate Partitions(fs: seq<OccupiedFootprint>, o: Occupancy) {
    && o.grid.Valid()
    && forall cu: nat, cv: nat :: Holders(fs, cu, cv) == if OccupiedChunk(o, cu, cv) then 1 else 0
  }

  // ---- In pixels ----

  predicate InBox(f: OccupiedFootprint, u: nat, v: nat) {
    f.slab.uStart <= u < f.slab.uStart + f.slab.uCount && f.slab.vStart <= v < f.slab.vStart + f.slab.vCount
  }

  // A pixel of the regions' box is in a footprint's box exactly when its chunk is the footprint's.
  lemma InBoxIsHeld(f: OccupiedFootprint, o: Occupancy, chunksPerRead: nat, u: nat, v: nat)
    requires o.grid.Valid() && WellCut(f, o, chunksPerRead)
    requires o.box.u0 <= u < o.box.u1 && o.box.v0 <= v < o.box.v1
    ensures InBox(f, u, v) <==> Holds(f, u / o.grid.chunkU, v / o.grid.chunkV)
  {
    B.AtOrPast(f.cuBegin, u, o.grid.chunkU);
    B.AtOrPast(f.cuEnd, u, o.grid.chunkU);
    B.AtOrPast(f.cvBegin, v, o.grid.chunkV);
    B.AtOrPast(f.cvEnd, v, o.grid.chunkV);
  }

  lemma InBoxIsInside(f: OccupiedFootprint, o: Occupancy, chunksPerRead: nat, u: nat, v: nat)
    requires WellCut(f, o, chunksPerRead) && InBox(f, u, v)
    ensures o.box.u0 <= u < o.box.u1 && o.box.v0 <= v < o.box.v1
  {}

  // The pixel boxes of two footprints share no pixel.
  lemma BoxesAreDisjoint(fs: seq<OccupiedFootprint>, o: Occupancy, chunksPerRead: nat, i: nat, j: nat, u: nat, v: nat)
    requires Partitions(fs, o) && AllWellCut(fs, o, chunksPerRead) && i < j < |fs|
    ensures !(InBox(fs[i], u, v) && InBox(fs[j], u, v))
  {
    if InBox(fs[i], u, v) && InBox(fs[j], u, v) {
      InBoxIsInside(fs[i], o, chunksPerRead, u, v);
      InBoxIsHeld(fs[i], o, chunksPerRead, u, v);
      InBoxIsHeld(fs[j], o, chunksPerRead, u, v);
      TwoHolders(fs, i, j, u / o.grid.chunkU, v / o.grid.chunkV);
    }
  }

  // Every selected pixel of every region is in the box of one of them.
  lemma EverySelectedPixelIsRead(fs: seq<OccupiedFootprint>, o: Occupancy, chunksPerRead: nat, r: nat, u: nat, v: nat)
    returns (i: nat)
    requires Usable(o) && Partitions(fs, o) && AllWellCut(fs, o, chunksPerRead)
    requires r < |o.regions| && Selected(o.regions[r], u, v)
    ensures i < |fs| && InBox(fs[i], u, v)
  {
    var cu, cv := u / o.grid.chunkU, v / o.grid.chunkV;
    assert InCell(o.regions[r], o.grid, cu, cv, u, v);
    assert Occupies(o.regions[r], o.grid, cu, cv);
    assert OccupiedChunk(o, cu, cv);
    i := AHolder(fs, cu, cv);
    assert Within(o.regions[r], o.box);
    InBoxIsHeld(fs[i], o, chunksPerRead, u, v);
  }
}
