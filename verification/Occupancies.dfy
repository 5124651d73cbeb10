// The index from chunks to the regions that select a pixel in them: Occupancy::Of and
// Occupancy::RegionsTouching, src/reduce/occupancy.cc and src/reduce/occupancy.h.

module Occupancies {
  import opened Wrappers
  import opened Regions
  import opened CellScan
  import opened Grouping
  import B = ChunkBlocks

  const MAX_SPECTRAL_REGIONS := 0x10_0000

  // Every refusal of a region set is an invalid argument.
  datatype Refusal = NoRegions | TooManyRegions | NotPlaceable | TooManyIncidences

  datatype PlaneExtent = PlaneExtent(width: nat, height: nat)

  // A box in pixels of the walk's axes, half-open.
  datatype Box = Box(u0: nat, v0: nat, u1: nat, v1: nat)

  // A maximal run of occupied columns of one grid row, both ends included.
  datatype ColumnRun = ColumnRun(first: nat, last: nat)
  datatype OccupiedRow = OccupiedRow(row: nat, runs: seq<ColumnRun>)

  datatype Occupancy = Occupancy(
    regions: seq<PlacedRegion>, box: Box, grid: Grid, cells: seq<nat>, offsets: seq<nat>, entries: seq<nat>,
    rows: seq<OccupiedRow>, layerChunks: nat)

  // ---- What the library sorts and searches with ----

  ghost predicate Ascending(s: seq<nat>) {
    forall i, j :: 0 <= i < j < |s| ==> s[i] < s[j]
  }

  lemma TailAscends(s: seq<nat>)
    requires Ascending(s) && s != []
    ensures Ascending(s[1..]) && forall y :: y in s[1..] ==> s[0] < y
  {
    forall y | y in s[1..] ensures s[0] < y {
      var k :| 0 <= k < |s[1..]| && s[1..][k] == y;
      assert s[k + 1] == y;
    }
  }

  lemma ConsAscends(x: nat, s: seq<nat>)
    requires Ascending(s) && forall y :: y in s ==> x < y
    ensures Ascending([x] + s)
  {
    assert forall k :: 0 <= k < |s| ==> s[k] in s;
  }

  // std::sort and std::unique, one element at a time.
  function Insert(x: nat, s: seq<nat>): (r: seq<nat>)
    requires Ascending(s)
    ensures Ascending(r) && forall y :: y in r <==> y == x || y in s
  {
    if s == [] then [x]
    else
      TailAscends(s);
      assert s == [s[0]] + s[1..];
      if x < s[0] then
        ConsAscends(x, s);
        [x] + s
      else if x == s[0] then s
      else
        var rest := Insert(x, s[1..]);
        ConsAscends(s[0], rest);
        [s[0]] + rest
  }

  function SortUnique(s: seq<nat>): (r: seq<nat>)
    ensures Ascending(r) && forall y :: y in r <==> y in s
  {
    if s == [] then [] else Insert(s[0], SortUnique(s[1..]))
  }

  // std::lower_bound: the first element not below the key.
  function LowerBound(s: seq<nat>, key: nat): (at: nat)
    ensures at <= |s| && (forall i :: 0 <= i < at ==> s[i] < key) && (at < |s| ==> s[at] >= key)
  {
    if s == [] || s[0] >= key then 0 else 1 + LowerBound(s[1..], key)
  }

  lemma AscendingAt(s: seq<nat>, a: nat, b: nat)
    requires Ascending(s) && a < |s| && b < |s|
    ensures a < b <==> s[a] < s[b]
  {}

  lemma LowerBoundFinds(s: seq<nat>, key: nat)
    requires Ascending(s)
    ensures key in s <==> LowerBound(s, key) < |s| && s[LowerBound(s, key)] == key
  {
    if key in s {
      var i :| 0 <= i < |s| && s[i] == key;
      var at := LowerBound(s, key);
      AscendingAt(s, at, i);
    }
  }

  // ---- Checking and bounding ----

  // Whether a region can be placed on the plane: a box inside it, and a raster cut for the box.
  predicate Placeable(given: RegionMask, plane: PlaneExtent) {
    && given.width > 0 && given.height > 0
    && given.xStart < plane.width && given.width <= plane.width - given.xStart
    && given.yStart < plane.height && given.height <= plane.height - given.yStart
    && match given.mask
       case NoMask(size) => size == 0
       case Raster(bytes) => |bytes| == given.width * given.height
  }

  function BoxOfOne(r: PlacedRegion): Box {
    Box(r.uStart, r.vStart, r.uStart + r.uSize, r.vStart + r.vSize)
  }

  function Join(a: Box, b: Box): Box {
    Box(B.Min(a.u0, b.u0), B.Min(a.v0, b.v0), B.Max(a.u1, b.u1), B.Max(a.v1, b.v1))
  }

  predicate Within(r: PlacedRegion, box: Box) {
    && box.u0 <= r.uStart && r.uStart + r.uSize <= box.u1
    && box.v0 <= r.vStart && r.vStart + r.vSize <= box.v1
  }

  ghost function BoxOf(regions: seq<PlacedRegion>): (box: Box)
    requires regions != []
    ensures forall i :: 0 <= i < |regions| ==> Within(regions[i], box)
  {
    if |regions| == 1 then BoxOfOne(regions[0])
    else Join(BoxOf(regions[..|regions| - 1]), BoxOfOne(regions[|regions| - 1]))
  }

  predicate HoldsAll(regions: seq<PlacedRegion>, box: Box) {
    forall i :: 0 <= i < |regions| ==> Within(regions[i], box)
  }

  predicate Inside(a: Box, b: Box) {
    b.u0 <= a.u0 && a.u1 <= b.u1 && b.v0 <= a.v0 && a.v1 <= b.v1
  }

  // The least box that holds the regions.
  ghost predicate IsBoxOf(box: Box, regions: seq<PlacedRegion>) {
    HoldsAll(regions, box) && forall other: Box :: HoldsAll(regions, other) ==> Inside(box, other)
  }

  lemma {:induction false} BoxOfIsLeast(regions: seq<PlacedRegion>)
    requires regions != []
    ensures IsBoxOf(BoxOf(regions), regions)
    decreases |regions|
  {
    var l := |regions| - 1;
    if l > 0 { BoxOfIsLeast(regions[..l]); }
    forall other: Box | HoldsAll(regions, other) ensures Inside(BoxOf(regions), other) {
      assert Within(regions[l], other) && HoldsAll(regions[..l], other);
    }
  }

  lemma OneLeastBox(box: Box, regions: seq<PlacedRegion>)
    requires regions != [] && IsBoxOf(box, regions)
    ensures box == BoxOf(regions)
  {
    BoxOfIsLeast(regions);
    hide BoxOf, HoldsAll;
    assert Inside(box, BoxOf(regions)) && Inside(BoxOf(regions), box);
  }

  function GridOf(box: Box, chunkU: nat, chunkV: nat): (grid: Grid)
    requires chunkU > 0 && chunkV > 0 && box.u0 < box.u1
    ensures grid.Valid()
  {
    B.DivMono(box.u0, box.u1 - 1, chunkU);
    Grid(chunkU, chunkV, box.u0 / chunkU, box.v0 / chunkV, (box.u1 - 1) / chunkU - box.u0 / chunkU + 1)
  }

  ghost function RowsOf(box: Box, chunkV: nat): nat
    requires chunkV > 0 && box.v0 < box.v1
  {
    B.DivMono(box.v0, box.v1 - 1, chunkV);
    (box.v1 - 1) / chunkV - box.v0 / chunkV + 1
  }

  // The chunk c has one of the coordinates from lo up to hi.
  predicate Crosses(lo: nat, hi: nat, chunk: nat, c: nat)
    requires chunk > 0
  {
    lo < hi && lo / chunk <= c <= (hi - 1) / chunk
  }

  // The grid's columns and rows are those of chunks that the box has pixels in.
  ghost predicate IsGridOf(g: Grid, box: Box) {
    && g.Valid() && box.u0 < box.u1 && box.v0 < box.v1
    && (forall cu: nat :: Crosses(box.u0, box.u1, g.chunkU, cu) <==> g.cu0 <= cu < g.cu0 + g.columns)
    && (forall cv: nat :: Crosses(box.v0, box.v1, g.chunkV, cv) <==> g.cv0 <= cv < g.cv0 + RowsOf(box, g.chunkV))
  }

  lemma GridOfIs(box: Box, chunkU: nat, chunkV: nat)
    requires chunkU > 0 && chunkV > 0 && box.u0 < box.u1 && box.v0 < box.v1
    ensures IsGridOf(GridOf(box, chunkU, chunkV), box)
  {
    B.DivMono(box.u0, box.u1 - 1, chunkU);
    B.DivMono(box.v0, box.v1 - 1, chunkV);
  }

  lemma OneGrid(g: Grid, box: Box)
    requires IsGridOf(g, box)
    ensures g == GridOf(box, g.chunkU, g.chunkV)
  {
    B.DivMono(box.u0, box.u1 - 1, g.chunkU);
    B.DivMono(box.v0, box.v1 - 1, g.chunkV);
    assert Crosses(box.u0, box.u1, g.chunkU, g.cu0) && Crosses(box.u0, box.u1, g.chunkU, box.u0 / g.chunkU);
    assert Crosses(box.u0, box.u1, g.chunkU, g.cu0 + g.columns - 1);
    assert Crosses(box.u0, box.u1, g.chunkU, (box.u1 - 1) / g.chunkU);
    assert Crosses(box.v0, box.v1, g.chunkV, g.cv0) && Crosses(box.v0, box.v1, g.chunkV, box.v0 / g.chunkV);
  }

  lemma WithinIsOnGrid(r: PlacedRegion, box: Box, chunkU: nat, chunkV: nat)
    requires chunkU > 0 && chunkV > 0 && Valid(r) && Within(r, box)
    ensures box.u0 < box.u1 && box.v0 < box.v1
    ensures OnGrid(r, GridOf(box, chunkU, chunkV), RowsOf(box, chunkV))
  {
    B.DivMono(box.u0, r.uStart, chunkU);
    B.DivMono(r.uStart + r.uSize - 1, box.u1 - 1, chunkU);
    B.DivMono(box.v0, r.vStart, chunkV);
    B.DivMono(r.vStart + r.vSize - 1, box.v1 - 1, chunkV);
  }

  // ---- What the index promises ----

  // The regions below k that occupy cell n, ascending.
  ghost function RegionsOf(regions: seq<PlacedRegion>, g: Grid, n: nat, k: nat): seq<nat>
    requires g.Valid() && k <= |regions|
  {
    if k == 0 then []
    else RegionsOf(regions, g, n, k - 1) + if OccupiesCell(regions[k - 1], g, n) then [k - 1] else []
  }

  lemma {:induction false} RegionsOfAre(regions: seq<PlacedRegion>, g: Grid, n: nat, k: nat, i: nat)
    requires g.Valid() && k <= |regions|
    ensures i in RegionsOf(regions, g, n, k) <==> i < k && OccupiesCell(regions[i], g, n)
    ensures Ascending(RegionsOf(regions, g, n, k))
    ensures forall j :: 0 <= j < |RegionsOf(regions, g, n, k)| ==> RegionsOf(regions, g, n, k)[j] < k
  {
    if k == 0 {
    } else {
      RegionsOfAre(regions, g, n, k - 1, i);
      hide OccupiesCell;
    }
  }

  ghost predicate Occupied(regions: seq<PlacedRegion>, g: Grid, n: nat)
    requires g.Valid()
  {
    exists i :: 0 <= i < |regions| && OccupiesCell(regions[i], g, n)
  }

  // The compressed-row index: the occupied cells ascend, and each one's entries are its regions.
  ghost predicate IsIndex(regions: seq<PlacedRegion>, g: Grid, cells: seq<nat>, offsets: seq<nat>, entries: seq<nat>) {
    && g.Valid()
    && Ascending(cells)
    && (forall n :: n in cells <==> Occupied(regions, g, n))
    && |offsets| == |cells| + 1
    && (forall s :: 0 <= s < |cells| ==> EntriesAre(regions, g, cells, offsets, entries, s))
  }

  ghost predicate EntriesAre(regions: seq<PlacedRegion>, g: Grid, cells: seq<nat>, offsets: seq<nat>, entries: seq<nat>,
                             s: nat)
    requires g.Valid() && s < |cells| && |offsets| == |cells| + 1
  {
    && offsets[s] <= offsets[s + 1] <= |entries|
    && entries[offsets[s]..offsets[s + 1]] == RegionsOf(regions, g, cells[s], |regions|)
  }

  ghost predicate Indexes(o: Occupancy) {
    IsIndex(o.regions, o.grid, o.cells, o.offsets, o.entries)
  }

  // The regions touching one chunk.
  function RegionsTouching(o: Occupancy, cu: nat, cv: nat): seq<nat>
    requires cu >= o.grid.cu0 && cv >= o.grid.cv0
  {
    var key := o.grid.Cell(cu, cv);
    var found := LowerBound(o.cells, key);
    if found == |o.cells| || o.cells[found] != key then []
    else if found + 1 < |o.offsets| && o.offsets[found] <= o.offsets[found + 1] <= |o.entries| then
      o.entries[o.offsets[found]..o.offsets[found + 1]]
    else []
  }

  lemma TouchingIs(o: Occupancy, cu: nat, cv: nat)
    requires Indexes(o) && cu >= o.grid.cu0 && cv >= o.grid.cv0
    ensures RegionsTouching(o, cu, cv) == RegionsOf(o.regions, o.grid, o.grid.Cell(cu, cv), |o.regions|)
  {
    var key := o.grid.Cell(cu, cv);
    LowerBoundFinds(o.cells, key);
    if key in o.cells {
      assert EntriesAre(o.regions, o.grid, o.cells, o.offsets, o.entries, LowerBound(o.cells, key));
    } else {
      assert !Occupied(o.regions, o.grid, key);
      NoRegionsOf(o.regions, o.grid, key, |o.regions|);
    }
  }

  lemma {:induction false} NoRegionsOf(regions: seq<PlacedRegion>, g: Grid, n: nat, k: nat)
    requires g.Valid() && k <= |regions| && !Occupied(regions, g, n)
    ensures RegionsOf(regions, g, n, k) == []
  {
    if k > 0 { NoRegionsOf(regions, g, n, k - 1); }
  }

  // Of a chunk on the grid: exactly the regions with a selected pixel in it, ascending, each once.
  lemma RegionsTouchingAreExact(o: Occupancy, cu: nat, cv: nat, i: nat)
    requires Indexes(o) && o.grid.cu0 <= cu < o.grid.cu0 + o.grid.columns && cv >= o.grid.cv0
    ensures Ascending(RegionsTouching(o, cu, cv))
    ensures i in RegionsTouching(o, cu, cv) <==> i < |o.regions| && Occupies(o.regions[i], o.grid, cu, cv)
    ensures forall k :: 0 <= k < |RegionsTouching(o, cu, cv)| ==> RegionsTouching(o, cu, cv)[k] < |o.regions|
  {
    TouchingIs(o, cu, cv);
    o.grid.CellIs(cu, cv);
    RegionsOfAre(o.regions, o.grid, o.grid.Cell(cu, cv), |o.regions|, i);
  }

  // No region is named exactly when none occupies the cell of that number.
  lemma TouchesNoneExactly(o: Occupancy, cu: nat, cv: nat)
    requires Indexes(o) && cu >= o.grid.cu0 && cv >= o.grid.cv0
    ensures RegionsTouching(o, cu, cv) == [] <==> !Occupied(o.regions, o.grid, o.grid.Cell(cu, cv))
  {
    var n := o.grid.Cell(cu, cv);
    TouchingIs(o, cu, cv);
    if Occupied(o.regions, o.grid, n) {
      var i: nat :| i < |o.regions| && OccupiesCell(o.regions[i], o.grid, n);
      RegionsOfAre(o.regions, o.grid, n, |o.regions|, i);
    } else {
      NoRegionsOf(o.regions, o.grid, n, |o.regions|);
    }
  }

  ghost predicate OccupiedChunk(o: Occupancy, cu: nat, cv: nat)
    requires o.grid.Valid()
  {
    exists i :: 0 <= i < |o.regions| && Occupies(o.regions[i], o.grid, cu, cv)
  }

  // An unoccupied chunk is answered with no region exactly when it is on the grid, or its number off the grid
  // is that of a cell that is unoccupied too.
  lemma NoneForUnoccupiedExactly(o: Occupancy, cu: nat, cv: nat)
    requires Indexes(o) && cu >= o.grid.cu0 && cv >= o.grid.cv0 && !OccupiedChunk(o, cu, cv)
    ensures RegionsTouching(o, cu, cv) == []
       <==> cu < o.grid.cu0 + o.grid.columns || !Occupied(o.regions, o.grid, o.grid.Cell(cu, cv))
  {
    TouchesNoneExactly(o, cu, cv);
    if cu < o.grid.cu0 + o.grid.columns { o.grid.CellIs(cu, cv); }
  }

  // A chunk to the right of the grid has no number of its own: it is answered as the chunk its
  // number wraps round to, one row below.
  lemma RightOfTheGridWraps(o: Occupancy, cu: nat, cv: nat)
    requires cu >= o.grid.cu0 + o.grid.columns && cv >= o.grid.cv0
    ensures RegionsTouching(o, cu, cv) == RegionsTouching(o, cu - o.grid.columns, cv + 1)
  {
    assert (cv + 1 - o.grid.cv0) * o.grid.columns == (cv - o.grid.cv0) * o.grid.columns + o.grid.columns;
  }

  // ---- Counting the incidences ----

  ghost function Incidences(regions: seq<PlacedRegion>, g: Grid, n: nat, k: nat): seq<nat>
    requires g.Valid() && k <= |regions|
  {
    if k == 0 then [] else Incidences(regions, g, n, k - 1) + CellsBelow(regions[k - 1], g, n)
  }

  function Repeat(i: nat, n: nat): (s: seq<nat>)
    ensures |s| == n
  {
    if n == 0 then [] else Repeat(i, n - 1) + [i]
  }

  // The region each incidence is of.
  ghost function Owners(regions: seq<PlacedRegion>, g: Grid, n: nat, k: nat): seq<nat>
    requires g.Valid() && k <= |regions|
  {
    if k == 0 then []
    else Owners(regions, g, n, k - 1) + Repeat(k - 1, |CellsBelow(regions[k - 1], g, n)|)
  }

  lemma {:induction false} OwnersMatch(regions: seq<PlacedRegion>, g: Grid, n: nat, k: nat)
    requires g.Valid() && k <= |regions|
    ensures |Owners(regions, g, n, k)| == |Incidences(regions, g, n, k)|
  {
    if k > 0 { OwnersMatch(regions, g, n, k - 1); }
  }

  // Appending one region's cells gives each of them that region, and the others nothing.
  lemma {:induction false} OneRegionGroup(keys: seq<nat>, owners: seq<nat>, r: PlacedRegion, g: Grid, n: nat, i: nat,
                                          c: nat)
    requires g.Valid() && |keys| == |owners|
    ensures Group(keys + CellsBelow(r, g, n), owners + Repeat(i, |CellsBelow(r, g, n)|), c)
         == Group(keys, owners, c) + if c < n && OccupiesCell(r, g, c) then [i] else []
  {
    hide *;
    if n == 0 {
      NoCells(r, g, i);
      assert keys + [] == keys && owners + [] == owners;
    } else {
      var before := CellsBelow(r, g, n - 1);
      OneRegionGroup(keys, owners, r, g, n - 1, i, c);
      OneMoreCell(r, g, n, i);
      if OccupiesCell(r, g, n - 1) {
        GroupAppend(keys + before, owners + Repeat(i, |before|), n - 1, i, c);
        assert keys + (before + [n - 1]) == keys + before + [n - 1];
        assert owners + (Repeat(i, |before|) + [i]) == owners + Repeat(i, |before|) + [i];
      }
    }
  }

  lemma NoCells(r: PlacedRegion, g: Grid, i: nat)
    requires g.Valid()
    ensures CellsBelow(r, g, 0) == [] && Repeat(i, 0) == []
  {}

  lemma OneMoreCell(r: PlacedRegion, g: Grid, n: nat, i: nat)
    requires g.Valid() && n > 0
    ensures if OccupiesCell(r, g, n - 1) then
              && CellsBelow(r, g, n) == CellsBelow(r, g, n - 1) + [n - 1]
              && Repeat(i, |CellsBelow(r, g, n)|) == Repeat(i, |CellsBelow(r, g, n - 1)|) + [i]
            else CellsBelow(r, g, n) == CellsBelow(r, g, n - 1)
  {}

  // Grouping the incidences by cell gives each cell's regions.
  lemma {:induction false} GroupIsRegions(regions: seq<PlacedRegion>, g: Grid, rows: nat, n: nat, k: nat, c: nat)
    requires g.Valid() && k <= |regions| && forall i :: 0 <= i < |regions| ==> OnGrid(regions[i], g, rows)
    requires n == rows * g.columns
    ensures |Owners(regions, g, n, k)| == |Incidences(regions, g, n, k)|
    ensures Group(Incidences(regions, g, n, k), Owners(regions, g, n, k), c) == RegionsOf(regions, g, c, k)
  {
    hide OccupiesCell, OnGrid, CellsBelow, Grid.Valid;
    OwnersMatch(regions, g, n, k);
    if k > 0 {
      OwnersMatch(regions, g, n, k - 1);
      GroupIsRegions(regions, g, rows, n, k - 1, c);
      PastTheGrid(regions[k - 1], g, rows, c);
      OneRegionGroup(Incidences(regions, g, n, k - 1), Owners(regions, g, n, k - 1), regions[k - 1], g, n, k - 1, c);
      hide Group, RegionsOf, Incidences, Owners;
      OneMoreRegion(regions, g, n, k, c);
    }
  }

  lemma OneMoreRegion(regions: seq<PlacedRegion>, g: Grid, n: nat, k: nat, c: nat)
    requires g.Valid() && 0 < k <= |regions|
    ensures RegionsOf(regions, g, c, k)
         == RegionsOf(regions, g, c, k - 1) + if OccupiesCell(regions[k - 1], g, c) then [k - 1] else []
    ensures Incidences(regions, g, n, k) == Incidences(regions, g, n, k - 1) + CellsBelow(regions[k - 1], g, n)
    ensures Owners(regions, g, n, k) == Owners(regions, g, n, k - 1) + Repeat(k - 1, |CellsBelow(regions[k - 1], g, n)|)
  {}

  // No region occupies a cell past the grid.
  lemma PastTheGrid(r: PlacedRegion, g: Grid, rows: nat, c: nat)
    requires OnGrid(r, g, rows)
    ensures OccupiesCell(r, g, c) ==> c < rows * g.columns
  {
    if OccupiesCell(r, g, c) {
      OccupiedUnderBox(r, g, g.cu0 + c % g.columns, g.cv0 + c / g.columns);
      B.AtOrPast(rows, c, g.columns);
    }
  }

  lemma {:induction false} IncidencesAre(regions: seq<PlacedRegion>, g: Grid, rows: nat, n: nat, k: nat, c: nat)
    requires g.Valid() && k <= |regions| && forall i :: 0 <= i < |regions| ==> OnGrid(regions[i], g, rows)
    requires n == rows * g.columns
    ensures c in Incidences(regions, g, n, k) <==> OccupiedBelow(regions, g, c, k)
  {
    hide OccupiesCell, OnGrid, CellsBelow, Grid.Valid;
    if k > 0 {
      IncidencesAre(regions, g, rows, n, k - 1, c);
      CellsBelowAre(regions[k - 1], g, n, c);
      PastTheGrid(regions[k - 1], g, rows, c);
      if OccupiedBelow(regions, g, c, k - 1) {
        var i :| 0 <= i < k - 1 && OccupiesCell(regions[i], g, c);
        assert OccupiedBelow(regions, g, c, k);
      }
    }
  }

  ghost predicate OccupiedBelow(regions: seq<PlacedRegion>, g: Grid, c: nat, k: nat)
    requires g.Valid() && k <= |regions|
  {
    exists i :: 0 <= i < k && OccupiesCell(regions[i], g, c)
  }

  // ---- Runs of occupied columns, row by row ----

  ghost predicate InColumns(runs: seq<ColumnRun>, column: nat) {
    exists j :: 0 <= j < |runs| && runs[j].first <= column <= runs[j].last
  }

  ghost predicate InRows(rows: seq<OccupiedRow>, row: nat, column: nat) {
    exists i :: 0 <= i < |rows| && rows[i].row == row && InColumns(rows[i].runs, column)
  }

  // Runs of one row: inside the grid, in order, and apart, so that each is maximal.
  ghost predicate RunsApart(runs: seq<ColumnRun>, columns: nat) {
    && runs != []
    && (forall j :: 0 <= j < |runs| ==> runs[j].first <= runs[j].last < columns)
    && (forall j, k :: 0 <= j < k < |runs| ==> runs[j].last + 1 < runs[k].first)
  }

  ghost function RunCells(runs: seq<ColumnRun>): int {
    if runs == [] then 0
    else RunCells(runs[..|runs| - 1]) + (runs[|runs| - 1].last - runs[|runs| - 1].first + 1)
  }

  ghost function RowCells(rows: seq<OccupiedRow>): int {
    if rows == [] then 0 else RowCells(rows[..|rows| - 1]) + RunCells(rows[|rows| - 1].runs)
  }

  // The rows hold exactly the cells, each once.
  ghost predicate RowsHold(rows: seq<OccupiedRow>, cells: seq<nat>, columns: nat)
    requires columns > 0
  {
    && RowsApart(rows, columns)
    && (forall n: nat :: n in cells <==> InRows(rows, n / columns, n % columns))
    && RowCells(rows) == |cells|
  }

  // One more cell, to the right of or below every cell so far.
  function AddCell(rows: seq<OccupiedRow>, row: nat, column: nat): seq<OccupiedRow> {
    if rows == [] || rows[|rows| - 1].row != row then rows + [OccupiedRow(row, [ColumnRun(column, column)])]
    else
      var runs := rows[|rows| - 1].runs;
      rows[|rows| - 1 := OccupiedRow(row, AddColumn(runs, column))]
  }

  function AddColumn(runs: seq<ColumnRun>, column: nat): seq<ColumnRun> {
    if runs != [] && runs[|runs| - 1].last + 1 == column then
      runs[|runs| - 1 := ColumnRun(runs[|runs| - 1].first, column)]
    else runs + [ColumnRun(column, column)]
  }

  lemma AddColumnIs(runs: seq<ColumnRun>, column: nat, columns: nat)
    requires RunsApart(runs, columns) && runs[|runs| - 1].last < column < columns
    ensures RunsApart(AddColumn(runs, column), columns)
    ensures AddColumn(runs, column)[|AddColumn(runs, column)| - 1].last == column
    ensures forall c: nat :: InColumns(AddColumn(runs, column), c) <==> InColumns(runs, c) || c == column
    ensures RunCells(AddColumn(runs, column)) == RunCells(runs) + 1
  {
    var next := AddColumn(runs, column);
    var l := |runs| - 1;
    if runs[l].last + 1 == column {
      assert next[..l] == runs[..l];
    } else {
      assert next[..l + 1] == runs;
    }
    forall c: nat ensures InColumns(next, c) <==> InColumns(runs, c) || c == column {
      if j :| 0 <= j < |runs| && runs[j].first <= c <= runs[j].last {
        assert next[j].first <= c <= next[j].last;
      }
      if c == column { assert next[|next| - 1].first <= c <= next[|next| - 1].last; }
      if j :| 0 <= j < |next| && next[j].first <= c <= next[j].last {
        assert j <= l ==> runs[j].first <= c <= runs[j].last || c == column;
      }
    }
  }

  // What the last cell added left behind.
  ghost predicate EndsAt(rows: seq<OccupiedRow>, row: nat, column: nat) {
    && rows != [] && rows[|rows| - 1].row == row
    && rows[|rows| - 1].runs != [] && rows[|rows| - 1].runs[|rows[|rows| - 1].runs| - 1].last == column
  }

  ghost predicate RowsApart(rows: seq<OccupiedRow>, columns: nat) {
    && (forall i :: 0 <= i < |rows| ==> RunsApart(rows[i].runs, columns))
    && (forall i, j :: 0 <= i < j < |rows| ==> rows[i].row < rows[j].row)
  }

  // A cell to the right of or below the last one.
  ghost predicate Follows(rows: seq<OccupiedRow>, row: nat, column: nat) {
    rows != [] ==> rows[|rows| - 1].row < row || exists c: nat :: c < column && EndsAt(rows, row, c)
  }

  lemma AddCellIs(rows: seq<OccupiedRow>, columns: nat, row: nat, column: nat)
    requires RowsApart(rows, columns) && column < columns && Follows(rows, row, column)
    ensures RowsApart(AddCell(rows, row, column), columns) && EndsAt(AddCell(rows, row, column), row, column)
    ensures RowCells(AddCell(rows, row, column)) == RowCells(rows) + 1
  {
    var next := AddCell(rows, row, column);
    var l := |rows| - 1;
    if rows == [] || rows[l].row != row {
      assert next[..|rows|] == rows;
      assert RunCells(next[|rows|].runs) == 1;
    } else {
      AddColumnIs(rows[l].runs, column, columns);
      assert next[..l] == rows[..l];
    }
  }

  lemma AddCellHolds(rows: seq<OccupiedRow>, columns: nat, row: nat, column: nat, r: nat, c: nat)
    requires RowsApart(rows, columns) && column < columns && Follows(rows, row, column)
    ensures InRows(AddCell(rows, row, column), r, c) <==> InRows(rows, r, c) || (r == row && c == column)
  {
    var next := AddCell(rows, row, column);
    var at := |next| - 1;
    var earlier := if at < |rows| then rows[at].runs else [];
    if at < |rows| { AddColumnIs(rows[at].runs, column, columns); }
    LastRowHolds(rows, columns, row, column, c);
    assert at < |rows| ==> rows[at].row == row;
    assert next[at].row == row && forall i :: 0 <= i < at ==> next[i] == rows[i];
    assert at == |rows| || at == |rows| - 1;
    hide InColumns, AddColumn, RunsApart, AddCell, RowsApart, Follows;
    RowsSplit(rows, next, at, earlier, row, r, c, column);
  }

  // The row a cell is added to.
  lemma LastRowHolds(rows: seq<OccupiedRow>, columns: nat, row: nat, column: nat, c: nat)
    requires RowsApart(rows, columns) && column < columns && Follows(rows, row, column)
    ensures var next := AddCell(rows, row, column);
            var at := |next| - 1;
            at >= 0 && (at < |rows| || at == |rows|)
            && (InColumns(next[at].runs, c)
                <==> (if at < |rows| then InColumns(rows[at].runs, c) else false) || c == column)
  {
    var next := AddCell(rows, row, column);
    var at := |next| - 1;
    if at < |rows| {
      AddColumnIs(rows[at].runs, column, columns);
    } else {
      assert next[at].runs[0].first == column;
    }
  }

  lemma RowsSplit(rows: seq<OccupiedRow>, next: seq<OccupiedRow>, at: nat, earlier: seq<ColumnRun>, row: nat, r: nat,
                  c: nat, column: nat)
    requires at < |next| && |next| == at + 1 && (at == |rows| || at == |rows| - 1)
    requires next[at].row == row && (at < |rows| ==> rows[at].row == row && rows[at].runs == earlier)
    requires forall i :: 0 <= i < at ==> next[i] == rows[i]
    requires InColumns(next[at].runs, c) <==> (at < |rows| && InColumns(earlier, c)) || c == column
    ensures InRows(next, r, c) <==> InRows(rows, r, c) || (r == row && c == column)
  {
    hide InColumns;
    if i :| 0 <= i < |rows| && rows[i].row == r && InColumns(rows[i].runs, c) {
      assert next[i].row == r && InColumns(next[i].runs, c);
    }
    if r == row && c == column { assert next[at].row == r && InColumns(next[at].runs, c); }
  }

  method OccupiedRows(cells: seq<nat>, columns: nat) returns (rows: seq<OccupiedRow>)
    requires columns > 0 && Ascending(cells)
    ensures RowsHold(rows, cells, columns)
  {
    rows := [];
    hide RowsApart, InRows, AddCell, EndsAt, RowCells;
    EmptyRows(columns);
    for k := 0 to |cells|
      invariant RowsHold(rows, cells[..k], columns)
      invariant if k == 0 then rows == [] else EndsAt(rows, cells[k - 1] / columns, cells[k - 1] % columns)
    {
      var row, column := cells[k] / columns, cells[k] % columns;
      assert cells[..k + 1] == cells[..k] + [cells[k]];
      NextCell(rows, cells, columns, k);
      rows := AddCell(rows, row, column);
    }
    assert cells[..|cells|] == cells;
  }

  lemma EmptyRows(columns: nat)
    requires columns > 0
    ensures RowsHold([], [], columns)
  {}

  lemma NextCell(rows: seq<OccupiedRow>, cells: seq<nat>, columns: nat, k: nat)
    requires columns > 0 && k < |cells| && Ascending(cells) && RowsHold(rows, cells[..k], columns)
    requires if k == 0 then rows == [] else EndsAt(rows, cells[k - 1] / columns, cells[k - 1] % columns)
    ensures RowsHold(AddCell(rows, cells[k] / columns, cells[k] % columns), cells[..k + 1], columns)
    ensures EndsAt(AddCell(rows, cells[k] / columns, cells[k] % columns), cells[k] / columns, cells[k] % columns)
  {
    if k > 0 {
      CellsInOrder(cells[k - 1], cells[k], columns);
    }
    NextCellAt(rows, cells, columns, k, cells[k] / columns, cells[k] % columns);
  }

  lemma NextCellAt(rows: seq<OccupiedRow>, cells: seq<nat>, columns: nat, k: nat, row: nat, column: nat)
    requires columns > 0 && k < |cells| && RowsHold(rows, cells[..k], columns)
    requires row == cells[k] / columns && column == cells[k] % columns
    requires Follows(rows, row, column)
    ensures RowsHold(AddCell(rows, row, column), cells[..k + 1], columns)
    ensures EndsAt(AddCell(rows, row, column), row, column)
  {
    hide AddCell, InRows, RowCells, RowsApart, EndsAt, Follows;
    AddCellIs(rows, columns, row, column);
    forall c: nat ensures c in cells[..k + 1] <==> InRows(AddCell(rows, row, column), c / columns, c % columns) {
      AddCellHolds(rows, columns, row, column, c / columns, c % columns);
      assert cells[..k + 1] == cells[..k] + [cells[k]];
      SameCell(c, cells[k], columns);
    }
  }

  lemma CellsInOrder(m: nat, n: nat, columns: nat)
    requires m < n && columns > 0
    ensures m / columns < n / columns || (m / columns == n / columns && m % columns < n % columns)
  {
    B.DivMono(m, n, columns);
    assert m == (m / columns) * columns + m % columns && n == (n / columns) * columns + n % columns;
  }

  lemma SameCell(a: nat, b: nat, columns: nat)
    requires columns > 0
    ensures a == b <==> a / columns == b / columns && a % columns == b % columns
  {
    assert a == (a / columns) * columns + a % columns && b == (b / columns) * columns + b % columns;
  }

  // ---- Building the index ----

  ghost function PlainOf(given: seq<RegionMask>, swapSpatial: bool): (regions: seq<PlacedRegion>)
    ensures |regions| == |given| && forall i :: 0 <= i < |given| ==> regions[i] == Plain(given[i], swapSpatial)
  {
    seq(|given|, i requires 0 <= i < |given| => Plain(given[i], swapSpatial))
  }

  ghost predicate Acceptable(given: seq<RegionMask>, plane: PlaneExtent) {
    0 < |given| <= MAX_SPECTRAL_REGIONS && forall i :: 0 <= i < |given| ==> Placeable(given[i], plane)
  }

  lemma BoxIsNotEmpty(regions: seq<PlacedRegion>)
    requires regions != [] && regions[0].uSize > 0 && regions[0].vSize > 0
    ensures BoxOf(regions).u0 < BoxOf(regions).u1 && BoxOf(regions).v0 < BoxOf(regions).v1
  {
    assert Within(regions[0], BoxOf(regions));
  }

  // How many cells the grid over the box has.
  ghost function GridCells(box: Box, chunkU: nat, chunkV: nat): nat
    requires chunkU > 0 && chunkV > 0 && box.u0 < box.u1 && box.v0 < box.v1
  {
    RowsOf(box, chunkV) * GridOf(box, chunkU, chunkV).columns
  }

  // How many chunks the regions touch, each region counting its own: what the index is bounded by.
  ghost function IncidenceCount(regions: seq<PlacedRegion>, chunkU: nat, chunkV: nat): nat
    requires regions != [] && chunkU > 0 && chunkV > 0 && regions[0].uSize > 0 && regions[0].vSize > 0
  {
    BoxIsNotEmpty(regions);
    var box := BoxOf(regions);
    |Incidences(regions, GridOf(box, chunkU, chunkV), GridCells(box, chunkU, chunkV), |regions|)|
  }

  // Giving regions runs changes nothing they select.
  ghost predicate SameButRuns(a: seq<PlacedRegion>, b: seq<PlacedRegion>) {
    |a| == |b| && forall i :: 0 <= i < |a| ==> a[i] == b[i].(runs := a[i].runs)
  }

  lemma {:induction false} SameBox(a: seq<PlacedRegion>, b: seq<PlacedRegion>)
    requires SameButRuns(a, b) && a != []
    ensures BoxOf(a) == BoxOf(b)
    decreases |a|
  {
    if |a| > 1 { SameBox(a[..|a| - 1], b[..|b| - 1]); }
  }

  lemma SameOccupies(a: PlacedRegion, b: PlacedRegion, g: Grid, n: nat)
    requires g.Valid() && a == b.(runs := a.runs)
    ensures OccupiesCell(a, g, n) == OccupiesCell(b, g, n)
  {
    var cu, cv := g.cu0 + n % g.columns, g.cv0 + n / g.columns;
    assert forall u: nat, v: nat :: InCell(a, g, cu, cv, u, v) == InCell(b, g, cu, cv, u, v);
  }

  lemma {:induction false} SameCells(a: PlacedRegion, b: PlacedRegion, g: Grid, n: nat)
    requires g.Valid() && a == b.(runs := a.runs)
    ensures CellsBelow(a, g, n) == CellsBelow(b, g, n)
  {
    if n > 0 {
      SameCells(a, b, g, n - 1);
      SameOccupies(a, b, g, n - 1);
    }
  }

  lemma {:induction false} SameIncidences(a: seq<PlacedRegion>, b: seq<PlacedRegion>, g: Grid, n: nat, k: nat)
    requires g.Valid() && SameButRuns(a, b) && k <= |a|
    ensures Incidences(a, g, n, k) == Incidences(b, g, n, k)
  {
    if k > 0 {
      SameIncidences(a, b, g, n, k - 1);
      SameCells(a[k - 1], b[k - 1], g, n);
    }
  }

  // What Of makes of the regions it accepts.
  ghost predicate Built(o: Occupancy, given: seq<RegionMask>, chunkU: nat, chunkV: nat, swapSpatial: bool) {
    && given != [] && chunkU > 0 && chunkV > 0
    && SameButRuns(o.regions, PlainOf(given, swapSpatial))
    && (forall i :: 0 <= i < |o.regions| ==> Valid(o.regions[i]))
    && IsBoxOf(o.box, o.regions) && o.box.u0 < o.box.u1 && o.box.v0 < o.box.v1
    && o.grid.chunkU == chunkU && o.grid.chunkV == chunkV && IsGridOf(o.grid, o.box)
    && Indexes(o)
    && RowsHold(o.rows, o.cells, o.grid.columns)
    && o.layerChunks == |o.cells|
  }

  method PlaceAll(given: seq<RegionMask>, ghost plane: PlaneExtent, swapSpatial: bool)
      returns (regions: seq<PlacedRegion>)
    requires Acceptable(given, plane)
    ensures SameButRuns(regions, PlainOf(given, swapSpatial))
    ensures forall i :: 0 <= i < |regions| ==> Valid(regions[i])
  {
    regions := [];
    for i := 0 to |given|
      invariant |regions| == i
      invariant forall j :: 0 <= j < i ==> regions[j] == Plain(given[j], swapSpatial).(runs := regions[j].runs)
      invariant forall j :: 0 <= j < i ==> Valid(regions[j])
    {
      assert Placeable(given[i], plane);
      var region := Place(given[i], swapSpatial);
      regions := regions + [region];
    }
  }

  method BoundingBox(regions: seq<PlacedRegion>) returns (box: Box)
    requires regions != []
    ensures box == BoxOf(regions)
  {
    box := BoxOfOne(regions[0]);
    for i := 1 to |regions|
      invariant box == BoxOf(regions[..i])
    {
      assert regions[..i + 1][..i] == regions[..i];
      box := Join(box, BoxOfOne(regions[i]));
    }
    assert regions[..|regions|] == regions;
  }

  lemma {:induction false} IncidencesGrow(regions: seq<PlacedRegion>, g: Grid, n: nat, a: nat, b: nat)
    requires g.Valid() && a <= b <= |regions|
    ensures |Incidences(regions, g, n, a)| <= |Incidences(regions, g, n, b)|
  {
    if a < b { IncidencesGrow(regions, g, n, a, b - 1); }
  }

  // Every incidence, in region order, and the region each is of, unless there are too many.
  method Scan(regions: seq<PlacedRegion>, g: Grid, ghost rows: nat, ghost n: nat)
    returns (incidences: seq<nat>, owners: seq<nat>, tooMany: bool)
    requires g.Valid() && forall i :: 0 <= i < |regions| ==> OnGrid(regions[i], g, rows)
    requires n == rows * g.columns
    ensures tooMany <==> |Incidences(regions, g, n, |regions|)| > MAX_CHUNK_INCIDENCES
    ensures !tooMany ==> incidences == Incidences(regions, g, n, |regions|)
    ensures !tooMany ==> owners == Owners(regions, g, n, |regions|)
  {
    hide OnGrid, CellsBelow, Grid.Valid;
    incidences, owners, tooMany := [], [], false;
    var i := 0;
    while i < |regions| && !tooMany
      invariant i <= |regions|
      invariant tooMany ==> |Incidences(regions, g, n, i)| > MAX_CHUNK_INCIDENCES
      invariant !tooMany ==> incidences == Incidences(regions, g, n, i) && owners == Owners(regions, g, n, i)
      invariant !tooMany ==> |incidences| <= MAX_CHUNK_INCIDENCES
    {
      var before := |incidences|;
      incidences, tooMany := ScanRegion(regions[i], g, rows, incidences);
      if !tooMany {
        owners := owners + Repeat(i, |incidences| - before);
      }
      i := i + 1;
    }
    IncidencesGrow(regions, g, n, i, |regions|);
  }

  // Each incidence's place among the occupied cells.
  method SlotsOf(cells: seq<nat>, incidences: seq<nat>) returns (slots: seq<nat>)
    requires Ascending(cells) && forall k :: 0 <= k < |incidences| ==> incidences[k] in cells
    ensures |slots| == |incidences|
    ensures forall k :: 0 <= k < |slots| ==> slots[k] < |cells| && cells[slots[k]] == incidences[k]
  {
    slots := [];
    for k := 0 to |incidences|
      invariant |slots| == k
      invariant forall j :: 0 <= j < k ==> slots[j] < |cells| && cells[slots[j]] == incidences[j]
    {
      LowerBoundFinds(cells, incidences[k]);
      slots := slots + [LowerBound(cells, incidences[k])];
    }
  }

  // Grouping by slot is grouping by cell.
  lemma {:induction false} GroupBySlot(slots: seq<nat>, keys: seq<nat>, owners: seq<nat>, cells: seq<nat>, s: nat)
    requires |slots| == |keys| == |owners| && Ascending(cells) && s < |cells|
    requires forall k :: 0 <= k < |slots| ==> slots[k] < |cells| && cells[slots[k]] == keys[k]
    ensures Group(slots, owners, s) == Group(keys, owners, cells[s])
    decreases |slots|
  {
    if slots != [] {
      var l := |slots| - 1;
      GroupBySlot(slots[..l], keys[..l], owners[..l], cells, s);
      AscendingAt(cells, slots[l], s);
      AscendingAt(cells, s, slots[l]);
    }
  }

  method Of(given: seq<RegionMask>, plane: PlaneExtent, chunkU: nat, chunkV: nat, swapSpatial: bool)
    returns (result: Result<Occupancy, Refusal>)
    requires chunkU > 0 && chunkV > 0
    ensures result.Ok? ==> Built(result.value, given, chunkU, chunkV, swapSpatial)
    ensures result.Ok? <==>
              && Acceptable(given, plane)
              && IncidenceCount(PlainOf(given, swapSpatial), chunkU, chunkV) <= MAX_CHUNK_INCIDENCES
    ensures result == Err(NoRegions) <==> given == []
    ensures result == Err(TooManyRegions) <==> |given| > MAX_SPECTRAL_REGIONS
  {
    if given == [] {
      return Err(NoRegions);
    }
    if |given| > MAX_SPECTRAL_REGIONS {
      return Err(TooManyRegions);
    }
    for i := 0 to |given|
      invariant forall j :: 0 <= j < i ==> Placeable(given[j], plane)
    {
      if !Placeable(given[i], plane) {
        return Err(NotPlaceable);
      }
    }
    var regions := PlaceAll(given, plane, swapSpatial);
    hide *;
    var box := BoundingBox(regions);
    ghost var plain := PlainOf(given, swapSpatial);
    BoxFits(regions, box, chunkU, chunkV);
    GridCovers(box, chunkU, chunkV);
    ghost var gridRows := RowsOf(box, chunkV);
    var grid := GridOf(box, chunkU, chunkV);
    GridOfIs(box, chunkU, chunkV);
    ghost var n := GridCells(box, chunkU, chunkV);
    PlainStarts(regions, plain);
    BoxOfIsLeast(regions);
    SameBox(regions, plain);
    SameIncidences(regions, plain, grid, n, |regions|);
    CountIs(plain, box, chunkU, chunkV);
    var incidences, owners, tooMany := Scan(regions, grid, gridRows, n);
    if tooMany {
      return Err(TooManyIncidences);
    }
    var cells, offsets, entries := IndexOf(regions, grid, gridRows, n, incidences, owners);
    var rows := OccupiedRows(cells, grid.columns);
    result := Ok(Occupancy(regions, box, grid, cells, offsets, entries, rows, |cells|));
    ItIsBuilt(result.value, given, chunkU, chunkV, swapSpatial);
  }

  lemma BoxFits(regions: seq<PlacedRegion>, box: Box, chunkU: nat, chunkV: nat)
    requires regions != [] && box == BoxOf(regions) && chunkU > 0 && chunkV > 0
    requires forall i :: 0 <= i < |regions| ==> Valid(regions[i])
    ensures box.u0 < box.u1 && box.v0 < box.v1
    ensures forall i :: 0 <= i < |regions| ==> OnGrid(regions[i], GridOf(box, chunkU, chunkV), RowsOf(box, chunkV))
    ensures forall i :: 0 <= i < |regions| ==> Within(regions[i], box)
  {
    BoxIsNotEmpty(regions);
    forall i | 0 <= i < |regions| ensures OnGrid(regions[i], GridOf(box, chunkU, chunkV), RowsOf(box, chunkV)) {
      WithinIsOnGrid(regions[i], box, chunkU, chunkV);
    }
  }

  lemma GridCovers(box: Box, chunkU: nat, chunkV: nat)
    requires chunkU > 0 && chunkV > 0 && box.u0 < box.u1 && box.v0 < box.v1
    ensures GridOf(box, chunkU, chunkV).Valid() && GridOf(box, chunkU, chunkV).columns > 0
    ensures GridCells(box, chunkU, chunkV) == RowsOf(box, chunkV) * GridOf(box, chunkU, chunkV).columns
  {}

  lemma PlainStarts(regions: seq<PlacedRegion>, plain: seq<PlacedRegion>)
    requires regions != [] && SameButRuns(regions, plain) && Valid(regions[0])
    ensures |plain| == |regions| && plain[0].uSize > 0 && plain[0].vSize > 0
  {}

  lemma CountIs(plain: seq<PlacedRegion>, box: Box, chunkU: nat, chunkV: nat)
    requires plain != [] && plain[0].uSize > 0 && plain[0].vSize > 0 && box == BoxOf(plain)
    requires chunkU > 0 && chunkV > 0 && box.u0 < box.u1 && box.v0 < box.v1
    ensures IncidenceCount(plain, chunkU, chunkV)
         == |Incidences(plain, GridOf(box, chunkU, chunkV), GridCells(box, chunkU, chunkV), |plain|)|
  {}

  lemma ItIsBuilt(o: Occupancy, given: seq<RegionMask>, chunkU: nat, chunkV: nat, swapSpatial: bool)
    requires given != [] && chunkU > 0 && chunkV > 0 && SameButRuns(o.regions, PlainOf(given, swapSpatial))
    requires forall i :: 0 <= i < |o.regions| ==> Valid(o.regions[i])
    requires IsBoxOf(o.box, o.regions) && o.box.u0 < o.box.u1 && o.box.v0 < o.box.v1
    requires o.grid.chunkU == chunkU && o.grid.chunkV == chunkV && IsGridOf(o.grid, o.box)
    requires IsIndex(o.regions, o.grid, o.cells, o.offsets, o.entries) && RowsHold(o.rows, o.cells, o.grid.columns)
    requires o.layerChunks == |o.cells|
    ensures Built(o, given, chunkU, chunkV, swapSpatial)
  {}

  // The incidences as a compressed-row index.
  method IndexOf(regions: seq<PlacedRegion>, g: Grid, ghost rows: nat, ghost n: nat, incidences: seq<nat>,
                 owners: seq<nat>)
    returns (cells: seq<nat>, offsets: seq<nat>, entries: seq<nat>)
    requires g.Valid() && forall i :: 0 <= i < |regions| ==> OnGrid(regions[i], g, rows)
    requires n == rows * g.columns
    requires incidences == Incidences(regions, g, n, |regions|) && owners == Owners(regions, g, n, |regions|)
    ensures Ascending(cells) && IsIndex(regions, g, cells, offsets, entries)
  {
    hide *;
    cells := SortUnique(incidences);
    var slots := SlotsOf(cells, incidences);
    OwnersMatch(regions, g, n, |regions|);
    offsets, entries := GroupByKey(slots, owners, |cells|);
    forall c ensures c in cells <==> Occupied(regions, g, c) {
      IncidencesAre(regions, g, rows, n, |regions|, c);
      AllBelow(regions, g, c);
    }
    forall s | 0 <= s < |cells| ensures EntriesAre(regions, g, cells, offsets, entries, s) {
      CellEntries(regions, g, rows, n, incidences, owners, cells, slots, offsets, entries, s);
    }
    ItIsAnIndex(regions, g, cells, offsets, entries);
  }

  lemma AllBelow(regions: seq<PlacedRegion>, g: Grid, c: nat)
    requires g.Valid()
    ensures OccupiedBelow(regions, g, c, |regions|) == Occupied(regions, g, c)
  {}

  lemma ItIsAnIndex(regions: seq<PlacedRegion>, g: Grid, cells: seq<nat>, offsets: seq<nat>, entries: seq<nat>)
    requires g.Valid() && Ascending(cells) && |offsets| == |cells| + 1
    requires forall n :: n in cells <==> Occupied(regions, g, n)
    requires forall s :: 0 <= s < |cells| ==> EntriesAre(regions, g, cells, offsets, entries, s)
    ensures IsIndex(regions, g, cells, offsets, entries)
  {}

  lemma CellEntries(regions: seq<PlacedRegion>, g: Grid, rows: nat, n: nat, incidences: seq<nat>, owners: seq<nat>,
                    cells: seq<nat>, slots: seq<nat>, offsets: seq<nat>, entries: seq<nat>, s: nat)
    requires g.Valid() && forall i :: 0 <= i < |regions| ==> OnGrid(regions[i], g, rows)
    requires n == rows * g.columns
    requires incidences == Incidences(regions, g, n, |regions|) && owners == Owners(regions, g, n, |regions|)
    requires |slots| == |incidences| == |owners| && Ascending(cells) && s < |cells|
    requires forall k :: 0 <= k < |slots| ==> slots[k] < |cells| && cells[slots[k]] == incidences[k]
    requires |offsets| == |cells| + 1 && forall c :: 0 <= c <= |cells| ==> offsets[c] == Start(slots, owners, c)
    requires entries == Grouped(slots, owners, |cells|)
    ensures EntriesAre(regions, g, cells, offsets, entries, s)
  {
    hide *;
    SlotEntries(slots, owners, |cells|, offsets, entries, s);
    GroupBySlot(slots, incidences, owners, cells, s);
    GroupIsRegions(regions, g, rows, n, |regions|, cells[s]);
    TheyAreTheEntries(regions, g, cells, offsets, entries, s);
  }

  lemma SlotEntries(slots: seq<nat>, owners: seq<nat>, n: nat, offsets: seq<nat>, entries: seq<nat>, s: nat)
    requires |slots| == |owners| && s < n && |offsets| == n + 1
    requires forall c :: 0 <= c <= n ==> offsets[c] == Start(slots, owners, c)
    requires entries == Grouped(slots, owners, n)
    ensures offsets[s] <= offsets[s + 1] <= |entries|
    ensures entries[offsets[s]..offsets[s + 1]] == Group(slots, owners, s)
  {
    GroupIsAStretch(slots, owners, s, n);
    hide Group, Grouped;
  }

  lemma TheyAreTheEntries(regions: seq<PlacedRegion>, g: Grid, cells: seq<nat>, offsets: seq<nat>, entries: seq<nat>,
                          s: nat)
    requires g.Valid() && s < |cells| && |offsets| == |cells| + 1 && offsets[s] <= offsets[s + 1] <= |entries|
    requires entries[offsets[s]..offsets[s + 1]] == RegionsOf(regions, g, cells[s], |regions|)
    ensures EntriesAre(regions, g, cells, offsets, entries, s)
  {}

  // ---- Off the grid ----

  lemma {:induction false} CellsAtMost(r: PlacedRegion, g: Grid, n: nat)
    requires g.Valid()
    ensures |CellsBelow(r, g, n)| <= n
  {
    hide OccupiesCell;
    if n > 0 { CellsAtMost(r, g, n - 1); }
  }

  // A region of one column and two rows.
  function Thin(): seq<RegionMask> { [RegionMask(0, 0, 1, 2, NoMask(0))] }

  lemma OneIncidence(regions: seq<PlacedRegion>, g: Grid, n: nat)
    requires g.Valid() && |regions| == 1
    ensures |Incidences(regions, g, n, 1)| <= n
  {
    CellsAtMost(regions[0], g, n);
    hide CellsBelow;
    assert Incidences(regions, g, n, 0) == [];
  }

  lemma ThinGrid()
    ensures GridOf(Box(0, 0, 1, 2), 1, 1) == Grid(1, 1, 0, 0, 1) && GridCells(Box(0, 0, 1, 2), 1, 1) == 2
  {
    B.DivIs(0, 1, 0);
    B.DivIs(1, 1, 1);
  }

  lemma ThinBox(regions: seq<PlacedRegion>)
    requires SameButRuns(regions, PlainOf(Thin(), false))
    ensures |regions| == 1 && regions[0] == Plain(Thin()[0], false).(runs := regions[0].runs)
    ensures BoxOf(regions) == Box(0, 0, 1, 2)
  {}

  lemma ThinIsPlaceable()
    ensures Acceptable(Thin(), PlaneExtent(1, 2)) && PlainOf(Thin(), false) != []
    ensures PlainOf(Thin(), false)[0].uSize == 1 && PlainOf(Thin(), false)[0].vSize == 2
  {}

  lemma ThinIsOne()
    ensures |PlainOf(Thin(), false)| == 1 && BoxOf(PlainOf(Thin(), false)) == Box(0, 0, 1, 2)
  {
    ThinBox(PlainOf(Thin(), false));
  }

  lemma ThinCount(plain: seq<PlacedRegion>)
    requires |plain| == 1 && plain[0].uSize > 0 && plain[0].vSize > 0 && BoxOf(plain) == Box(0, 0, 1, 2)
    ensures IncidenceCount(plain, 1, 1) <= MAX_CHUNK_INCIDENCES
  {
    hide Incidences, BoxOf, GridOf, GridCells;
    ThinGrid();
    OneIncidence(plain, Grid(1, 1, 0, 0, 1), 2);
  }

  // Its pixels are in chunks (0, 0) and (0, 1), the cells numbered 0 and 1.
  lemma ThinCells(r: PlacedRegion, g: Grid)
    requires g == Grid(1, 1, 0, 0, 1) && r == Plain(Thin()[0], false).(runs := r.runs)
    ensures !Occupies(r, g, 1, 0) && OccupiesCell(r, g, 1) && g.Cell(1, 0) == 1
  {
    forall u: nat, v: nat ensures !InCell(r, g, 1, 0, u, v) { B.DivIs(u, 1, u); }
    B.DivIs(0, 1, 0);
    B.DivIs(1, 1, 1);
    assert InCell(r, g, 0, 1, 0, 1);
  }

  lemma OneRegionOf(regions: seq<PlacedRegion>, g: Grid, n: nat)
    requires g.Valid() && |regions| == 1 && OccupiesCell(regions[0], g, n)
    ensures RegionsOf(regions, g, n, 1) == [0]
  {
    hide OccupiesCell;
    assert RegionsOf(regions, g, n, 0) == [];
  }

  lemma BuiltMeans(o: Occupancy, given: seq<RegionMask>, chunkU: nat, chunkV: nat, swapSpatial: bool)
    requires Built(o, given, chunkU, chunkV, swapSpatial)
    ensures SameButRuns(o.regions, PlainOf(given, swapSpatial)) && o.regions != [] && IsBoxOf(o.box, o.regions)
    ensures o.grid.chunkU == chunkU && o.grid.chunkV == chunkV && IsGridOf(o.grid, o.box) && Indexes(o)
    ensures o.grid.Valid() && o.box.u0 < o.box.u1 && o.box.v0 < o.box.v1
  {}

  lemma ThinWraps(o: Occupancy)
    requires Built(o, Thin(), 1, 1, false)
    ensures o.grid == Grid(1, 1, 0, 0, 1) && !OccupiedChunk(o, 1, 0) && RegionsTouching(o, 1, 0) == [0]
  {
    hide *;
    BuiltMeans(o, Thin(), 1, 1, false);
    OneLeastBox(o.box, o.regions);
    OneGrid(o.grid, o.box);
    ThinBox(o.regions);
    ThinGrid();
    ThinCells(o.regions[0], o.grid);
    GridIsValid(o.grid);
    NotOccupied(o);
    TouchingIs(o, 1, 0);
    OneRegionOf(o.regions, o.grid, 1);
  }

  lemma NotOccupied(o: Occupancy)
    requires o.grid.Valid() && |o.regions| == 1 && !Occupies(o.regions[0], o.grid, 1, 0)
    ensures !OccupiedChunk(o, 1, 0)
  {
    hide Occupies;
  }

  // A chunk right of the grid that no region occupies, and is answered with one: an occupancy the library
  // makes of that region, in chunks of one pixel.
  method AnswersRightOfTheGrid() returns (o: Occupancy)
    ensures Built(o, Thin(), 1, 1, false)
    ensures o.grid.cu0 + o.grid.columns <= 1 && o.grid.cv0 == 0 && o.grid.Valid() && !OccupiedChunk(o, 1, 0)
    ensures RegionsTouching(o, 1, 0) == [0]
  {
    hide *;
    ThinIsPlaceable();
    ThinIsOne();
    ThinCount(PlainOf(Thin(), false));
    var built := Of(Thin(), PlaneExtent(1, 2), 1, 1, false);
    o := built.value;
    ThinWraps(o);
    GridIsValid(o.grid);
  }

  lemma GridIsValid(g: Grid)
    requires g == Grid(1, 1, 0, 0, 1)
    ensures g.Valid()
  {}
}
