// Which chunk cells a region occupies: the scan inside Occupancy::Of, src/reduce/occupancy.cc.

module CellScan {
  import opened Wrappers
  import opened Regions
  import B = ChunkBlocks

  const MAX_CHUNK_INCIDENCES := 0x400_0000

  // The chunk grid over the regions' bounding box: its chunk shape, its first chunk and its width.
  datatype Grid = Grid(chunkU: nat, chunkV: nat, cu0: nat, cv0: nat, columns: nat)
  {
    predicate Valid() {
      chunkU > 0 && chunkV > 0 && columns > 0
    }

    // A cell's number, row by row.
    function Cell(cu: nat, cv: nat): nat
      requires cu >= cu0 && cv >= cv0
    {
      (cv - cv0) * columns + (cu - cu0)
    }

    lemma CellIs(cu: nat, cv: nat)
      requires cu0 <= cu < cu0 + columns && cv >= cv0
      ensures Cell(cu, cv) / columns == cv - cv0 && Cell(cu, cv) % columns == cu - cu0
    {
      B.DivMod(cv - cv0, cu - cu0, columns);
    }
  }

  ghost predicate InCell(r: PlacedRegion, g: Grid, cu: nat, cv: nat, u: nat, v: nat)
    requires g.Valid()
  {
    Selected(r, u, v) && u / g.chunkU == cu && v / g.chunkV == cv
  }

  // The region has a selected pixel in the chunk cell.
  ghost predicate Occupies(r: PlacedRegion, g: Grid, cu: nat, cv: nat)
    requires g.Valid()
  {
    exists u: nat, v: nat :: InCell(r, g, cu, cv, u, v)
  }

  ghost predicate OccupiesCell(r: PlacedRegion, g: Grid, n: nat)
    requires g.Valid()
  {
    Occupies(r, g, g.cu0 + n % g.columns, g.cv0 + n / g.columns)
  }

  // The cells below n the region occupies, ascending: what the scan has to find.
  ghost function CellsBelow(r: PlacedRegion, g: Grid, n: nat): seq<nat>
    requires g.Valid()
  {
    if n == 0 then [] else CellsBelow(r, g, n - 1) + if OccupiesCell(r, g, n - 1) then [n - 1] else []
  }

  lemma {:induction false} CellsBelowAre(r: PlacedRegion, g: Grid, n: nat, c: nat)
    requires g.Valid()
    ensures c in CellsBelow(r, g, n) <==> c < n && OccupiesCell(r, g, c)
    ensures |CellsBelow(r, g, n)| <= n
  {
    if n == 0 {
    } else {
      CellsBelowAre(r, g, n - 1, c);
      hide OccupiesCell;
    }
  }

  lemma {:induction false} NoneBetween(r: PlacedRegion, g: Grid, a: nat, b: nat)
    requires g.Valid() && a <= b && forall n :: a <= n < b ==> !OccupiesCell(r, g, n)
    ensures CellsBelow(r, g, a) == CellsBelow(r, g, b)
  {
    if a < b { NoneBetween(r, g, a, b - 1); }
  }

  lemma {:induction false} CellsBelowGrow(r: PlacedRegion, g: Grid, a: nat, b: nat)
    requires g.Valid() && a <= b
    ensures |CellsBelow(r, g, a)| <= |CellsBelow(r, g, b)|
  {
    if a < b { CellsBelowGrow(r, g, a, b - 1); }
  }

  // ---- Marking the columns one row of the region occupies ----

  ghost predicate SpanOccupies(r: PlacedRegion, chunkU: nat, span: Span, cu: nat, below: nat)
    requires chunkU > 0
  {
    exists u: nat :: u < below && Covers(r, span, u) && u / chunkU == cu
  }

  ghost predicate RowOccupies(r: PlacedRegion, chunkU: nat, cu: nat, y: nat)
    requires chunkU > 0
  {
    exists u: nat :: Selected(r, u, y) && u / chunkU == cu
  }

  function TrueCount(flags: seq<bool>): (n: nat)
    ensures n <= |flags|
    ensures n == |flags| <==> forall i :: 0 <= i < |flags| ==> flags[i]
  {
    if flags == [] then 0
    else TrueCount(flags[..|flags| - 1]) + if flags[|flags| - 1] then 1 else 0
  }

  lemma {:induction false} CountOneMore(flags: seq<bool>, i: nat)
    requires i < |flags| && !flags[i]
    ensures TrueCount(flags[i := true]) == TrueCount(flags) + 1
  {
    var l := |flags| - 1;
    var next := flags[i := true];
    if i < l {
      CountOneMore(flags[..l], i);
      assert next[..l] == flags[..l][i := true];
    } else {
      assert next[..l] == flags[..l];
    }
  }

  // The columns marked, and how many of them there are.
  datatype Marks = Marks(occupied: seq<bool>, found: nat)
  {
    ghost predicate Valid() { found == TrueCount(occupied) }

    function Mark(i: nat): Marks
      requires i < |occupied|
    {
      if occupied[i] then this else Marks(occupied[i := true], found + 1)
    }

    lemma MarkIs(i: nat)
      requires Valid() && i < |occupied|
      ensures Mark(i).Valid() && Mark(i).occupied == occupied[i := true]
    {
      if !occupied[i] { CountOneMore(occupied, i); } else { assert occupied[i := true] == occupied; }
    }
  }

  // `after` has the marks of `before` and those of the columns the span occupies below `below`.
  ghost predicate SpanMarked(r: PlacedRegion, chunkU: nat, span: Span, cx0: nat, before: Marks, after: Marks,
                             below: nat)
    requires chunkU > 0
  {
    && |after.occupied| == |before.occupied| && after.Valid()
    && forall i :: 0 <= i < |after.occupied| ==>
         (after.occupied[i] <==> before.occupied[i] || SpanOccupies(r, chunkU, span, cx0 + i, below))
  }

  // One more column of the span: [x, boundary) lies in column cx0 + i, which is marked when, and
  // only when, the span covers a pixel of it there.
  lemma OneColumn(r: PlacedRegion, chunkU: nat, span: Span, cx0: nat, before: Marks, after: Marks, x: nat,
                  boundary: nat, i: nat, next: Marks)
    requires chunkU > 0 && SpanMarked(r, chunkU, span, cx0, before, after, x) && i < |after.occupied|
    requires x <= boundary && forall u :: x <= u < boundary ==> u / chunkU == cx0 + i
    requires || (next == after && (after.occupied[i] || forall u :: x <= u < boundary ==> !Covers(r, span, u)))
             || (next == after.Mark(i) && exists u :: x <= u < boundary && Covers(r, span, u))
    ensures SpanMarked(r, chunkU, span, cx0, before, next, boundary)
  {
    after.MarkIs(i);
    forall j | 0 <= j < |next.occupied|
      ensures next.occupied[j] <==> before.occupied[j] || SpanOccupies(r, chunkU, span, cx0 + j, boundary)
    {
      if SpanOccupies(r, chunkU, span, cx0 + j, x) {
        var u: nat :| u < x && Covers(r, span, u) && u / chunkU == cx0 + j;
        assert u < boundary && Covers(r, span, u);
      }
      if SpanOccupies(r, chunkU, span, cx0 + j, boundary) && !SpanOccupies(r, chunkU, span, cx0 + j, x) {
        var u: nat :| u < boundary && Covers(r, span, u) && u / chunkU == cx0 + j;
        assert u >= x;
      }
      if next != after && j == i {
        var u: nat :| x <= u < boundary && Covers(r, span, u);
        assert SpanOccupies(r, chunkU, span, cx0 + j, boundary);
      }
    }
  }

  lemma NothingMarked(r: PlacedRegion, chunkU: nat, span: Span, cx0: nat, before: Marks)
    requires chunkU > 0 && before.Valid()
    ensures SpanMarked(r, chunkU, span, cx0, before, before, span.first)
  {}

  // Where the column x is in ends.
  function Boundary(x: nat, last: nat, chunk: nat): nat
    requires chunk > 0
  {
    B.Min(last, (x / chunk + 1) * chunk)
  }

  lemma ColumnBoundary(first: nat, x: nat, last: nat, chunk: nat)
    requires chunk > 0 && first <= x < last
    ensures x < Boundary(x, last, chunk) <= last
    ensures forall u :: x <= u < Boundary(x, last, chunk) ==> u / chunk == x / chunk
    ensures Boundary(x, last, chunk) < last ==> Boundary(x, last, chunk) / chunk == x / chunk + 1
    ensures Boundary(x, last, chunk) == last ==> (last - 1) / chunk == x / chunk
    ensures first / chunk <= x / chunk <= (last - 1) / chunk
  {
    var q := x / chunk;
    B.DivIs(x, chunk, q);
    forall u | x <= u < Boundary(x, last, chunk) ensures u / chunk == q {
      B.DivIs(u, chunk, q);
    }
    B.DivMod(q + 1, 0, chunk);
    B.DivMono(first, x, chunk);
    B.DivMono(x, last - 1, chunk);
  }

  // A span with every pixel selected occupies every column it crosses.
  method MarkWhole(r: PlacedRegion, chunkU: nat, span: Span, cx0: nat, before: Marks) returns (marks: Marks)
    requires chunkU > 0 && before.Valid() && span.selected.None? && span.first < span.last
    requires cx0 <= span.first / chunkU && (span.last - 1) / chunkU < cx0 + |before.occupied|
    ensures SpanMarked(r, chunkU, span, cx0, before, marks, span.last)
  {
    hide *;
    marks := before;
    NothingMarked(r, chunkU, span, cx0, before);
    ghost var x := span.first;
    ColumnBoundary(span.first, x, span.last, chunkU);
    var column := span.first / chunkU;
    while column <= (span.last - 1) / chunkU
      invariant span.first <= x <= span.last && cx0 <= column
      invariant if x < span.last then column == x / chunkU <= (span.last - 1) / chunkU
                else column == (span.last - 1) / chunkU + 1
      invariant |marks.occupied| == |before.occupied| && SpanMarked(r, chunkU, span, cx0, before, marks, x)
    {
      ColumnBoundary(span.first, x, span.last, chunkU);
      var i := column - cx0;
      WholeIsCovered(r, span, x);
      Shape(r, chunkU, span, cx0, before, marks, x);
      OneColumn(r, chunkU, span, cx0, before, marks, x, Boundary(x, span.last, chunkU), i, marks.Mark(i));
      Shape(r, chunkU, span, cx0, before, marks.Mark(i), Boundary(x, span.last, chunkU));
      marks := marks.Mark(i);
      x := Boundary(x, span.last, chunkU);
      if x < span.last { ColumnBoundary(span.first, x, span.last, chunkU); }
      column := column + 1;
    }
  }

  lemma WholeIsCovered(r: PlacedRegion, span: Span, u: nat)
    requires span.selected.None?
    ensures span.first <= u < span.last ==> Covers(r, span, u)
  {}

  lemma Shape(r: PlacedRegion, chunkU: nat, span: Span, cx0: nat, before: Marks, after: Marks, x: nat)
    requires chunkU > 0 && SpanMarked(r, chunkU, span, cx0, before, after, x)
    ensures |after.occupied| == |before.occupied| && after.Valid()
  {}

  // The first selected pixel of [from, to) is enough.
  method SomeCovered(r: PlacedRegion, span: Span, from: nat, to: nat) returns (found: bool)
    requires span.selected.Some? && r.mask.Some? && span.first <= from <= to <= span.last
    ensures found <==> exists u :: from <= u < to && Covers(r, span, u)
  {
    hide *;
    var k := from;
    while k < to
      invariant from <= k <= to && forall u :: from <= u < k ==> !Covers(r, span, u)
    {
      CoveredThroughRaster(r, span, k);
      if Bit(r.mask.value, span.selected.value + (k - span.first) * span.step) {
        return true;
      }
      k := k + 1;
    }
    found := false;
  }

  // Marks the columns in which the raster selects a pixel of the span. Nothing is read of a column once it is
  // marked.
  method MarkThroughRaster(r: PlacedRegion, chunkU: nat, span: Span, cx0: nat, before: Marks) returns (marks: Marks)
    requires chunkU > 0 && before.Valid() && span.selected.Some? && r.mask.Some? && span.first < span.last
    requires cx0 <= span.first / chunkU && (span.last - 1) / chunkU < cx0 + |before.occupied|
    ensures SpanMarked(r, chunkU, span, cx0, before, marks, span.last)
  {
    hide *;
    marks := before;
    NothingMarked(r, chunkU, span, cx0, before);
    var x := span.first;
    while x < span.last
      invariant span.first <= x <= span.last
      invariant |marks.occupied| == |before.occupied| && SpanMarked(r, chunkU, span, cx0, before, marks, x)
    {
      ColumnBoundary(span.first, x, span.last, chunkU);
      Shape(r, chunkU, span, cx0, before, marks, x);
      var boundary := Boundary(x, span.last, chunkU);
      var i := x / chunkU - cx0;
      var next := marks;
      if !marks.occupied[i] {
        var found := SomeCovered(r, span, x, boundary);
        if found {
          next := marks.Mark(i);
        }
      }
      OneColumn(r, chunkU, span, cx0, before, marks, x, boundary, i, next);
      Shape(r, chunkU, span, cx0, before, next, boundary);
      marks := next;
      x := boundary;
    }
  }

  lemma CoveredThroughRaster(r: PlacedRegion, span: Span, u: nat)
    requires span.selected.Some? && r.mask.Some? && span.first <= u < span.last
    ensures Covers(r, span, u) <==> Bit(r.mask.value, span.selected.value + (u - span.first) * span.step)
  {}

  // ---- The rows of one chunk row ----

  // `after` has the marks of `before` and those of the columns the region occupies in rows [from, to).
  ghost predicate RowsMarked(r: PlacedRegion, chunkU: nat, cx0: nat, from: nat, to: nat, marks: Marks)
    requires chunkU > 0
  {
    && marks.Valid()
    && forall i :: 0 <= i < |marks.occupied| ==> (marks.occupied[i] <==> RowsOccupy(r, chunkU, cx0 + i, from, to))
  }

  ghost predicate RowsOccupy(r: PlacedRegion, chunkU: nat, cu: nat, from: nat, to: nat)
    requires chunkU > 0
  {
    exists y: nat :: from <= y < to && RowOccupies(r, chunkU, cu, y)
  }

  // The spans of one row mark exactly the columns the row occupies.
  ghost predicate SpansMarked(r: PlacedRegion, chunkU: nat, spans: seq<Span>, n: nat, cx0: nat, before: Marks,
                              after: Marks)
    requires chunkU > 0 && n <= |spans|
  {
    && |after.occupied| == |before.occupied| && after.Valid()
    && forall i :: 0 <= i < |after.occupied| ==>
         (after.occupied[i] <==> before.occupied[i] || SpansOccupy(r, chunkU, spans, n, cx0 + i))
  }

  ghost predicate SpansOccupy(r: PlacedRegion, chunkU: nat, spans: seq<Span>, n: nat, cu: nat)
    requires chunkU > 0 && n <= |spans|
  {
    exists k :: 0 <= k < n && SpanOccupies(r, chunkU, spans[k], cu, spans[k].last)
  }

  lemma OneMoreSpan(r: PlacedRegion, chunkU: nat, spans: seq<Span>, n: nat, cx0: nat, before: Marks, marks: Marks,
                    next: Marks)
    requires chunkU > 0 && n < |spans|
    requires SpansMarked(r, chunkU, spans, n, cx0, before, marks)
    requires SpanMarked(r, chunkU, spans[n], cx0, marks, next, spans[n].last)
    ensures SpansMarked(r, chunkU, spans, n + 1, cx0, before, next)
  {
    forall i | 0 <= i < |next.occupied|
      ensures next.occupied[i] <==> before.occupied[i] || SpansOccupy(r, chunkU, spans, n + 1, cx0 + i)
    {
      var cu := cx0 + i;
      if SpansOccupy(r, chunkU, spans, n, cu) {
        var k :| 0 <= k < n && SpanOccupies(r, chunkU, spans[k], cu, spans[k].last);
        assert SpansOccupy(r, chunkU, spans, n + 1, cu);
      }
      if SpanOccupies(r, chunkU, spans[n], cu, spans[n].last) {
        assert SpansOccupy(r, chunkU, spans, n + 1, cu);
      }
      if SpansOccupy(r, chunkU, spans, n + 1, cu) {
        var k :| 0 <= k < n + 1 && SpanOccupies(r, chunkU, spans[k], cu, spans[k].last);
        assert k < n ==> SpansOccupy(r, chunkU, spans, n, cu);
      }
    }
  }

  // A row's spans, over the whole of the region, occupy what the row occupies.
  lemma SpansAreTheRow(r: PlacedRegion, chunkU: nat, y: nat, spans: seq<Span>, cu: nat)
    requires chunkU > 0 && SpansOf(r, y, r.uStart, r.uStart + r.uSize, spans)
    ensures SpansOccupy(r, chunkU, spans, |spans|, cu) <==> RowOccupies(r, chunkU, cu, y)
  {
    if SpansOccupy(r, chunkU, spans, |spans|, cu) {
      var k :| 0 <= k < |spans| && SpanOccupies(r, chunkU, spans[k], cu, spans[k].last);
      var u: nat :| u < spans[k].last && Covers(r, spans[k], u) && u / chunkU == cu;
      assert CoveredBy(r, spans, u);
      assert Selected(r, u, y);
    }
    if RowOccupies(r, chunkU, cu, y) {
      var u: nat :| Selected(r, u, y) && u / chunkU == cu;
      OutsideIsUnselected(r, u, y);
      assert CoveredBy(r, spans, u);
      var k :| 0 <= k < |spans| && Covers(r, spans[k], u);
      assert SpanOccupies(r, chunkU, spans[k], cu, spans[k].last);
    }
  }

  // The columns of the region's box lie where its marks are.
  ghost predicate ColumnsFit(r: PlacedRegion, chunkU: nat, cx0: nat, columns: nat)
    requires chunkU > 0 && r.uSize > 0
  {
    cx0 == r.uStart / chunkU && columns == (r.uStart + r.uSize - 1) / chunkU - cx0 + 1
  }

  method MarkRow(r: PlacedRegion, chunkU: nat, cx0: nat, from: nat, y: nat, before: Marks) returns (marks: Marks)
    requires chunkU > 0 && Valid(r) && r.vStart <= from <= y < r.vStart + r.vSize
    requires ColumnsFit(r, chunkU, cx0, |before.occupied|)
    requires RowsMarked(r, chunkU, cx0, from, y, before)
    ensures |marks.occupied| == |before.occupied| && RowsMarked(r, chunkU, cx0, from, y + 1, marks)
  {
    hide *;
    var spans := ForEachSpan(r, y, r.uStart, r.uStart + r.uSize);
    marks := before;
    NoSpanMarked(r, chunkU, spans, cx0, before, from, y);
    for k := 0 to |spans|
      invariant |marks.occupied| == |before.occupied| && SpansMarked(r, chunkU, spans, k, cx0, before, marks)
    {
      SpanFits(r, chunkU, cx0, y, spans, k, before, marks);
      var next;
      if spans[k].selected.None? {
        next := MarkWhole(r, chunkU, spans[k], cx0, marks);
      } else {
        next := MarkThroughRaster(r, chunkU, spans[k], cx0, marks);
      }
      OneMoreSpan(r, chunkU, spans, k, cx0, before, marks, next);
      Shape(r, chunkU, spans[k], cx0, marks, next, spans[k].last);
      marks := next;
    }
    RowDone(r, chunkU, cx0, from, y, spans, before, marks);
  }

  lemma NoSpanMarked(r: PlacedRegion, chunkU: nat, spans: seq<Span>, cx0: nat, before: Marks, from: nat, y: nat)
    requires chunkU > 0 && RowsMarked(r, chunkU, cx0, from, y, before)
    ensures SpansMarked(r, chunkU, spans, 0, cx0, before, before)
  {}

  lemma SpanFits(r: PlacedRegion, chunkU: nat, cx0: nat, y: nat, spans: seq<Span>, k: nat, before: Marks, marks: Marks)
    requires chunkU > 0 && Valid(r) && k < |spans| && SpansOf(r, y, r.uStart, r.uStart + r.uSize, spans)
    requires ColumnsFit(r, chunkU, cx0, |before.occupied|) && SpansMarked(r, chunkU, spans, k, cx0, before, marks)
    ensures marks.Valid() && spans[k].first < spans[k].last && (spans[k].selected.Some? ==> r.mask.Some?)
    ensures cx0 <= spans[k].first / chunkU && (spans[k].last - 1) / chunkU < cx0 + |before.occupied|
  {
    B.DivMono(r.uStart, spans[k].first, chunkU);
    B.DivMono(spans[k].last - 1, r.uStart + r.uSize - 1, chunkU);
  }

  lemma RowDone(r: PlacedRegion, chunkU: nat, cx0: nat, from: nat, y: nat, spans: seq<Span>, before: Marks,
                marks: Marks)
    requires chunkU > 0 && from <= y && RowsMarked(r, chunkU, cx0, from, y, before)
    requires SpansOf(r, y, r.uStart, r.uStart + r.uSize, spans)
    requires SpansMarked(r, chunkU, spans, |spans|, cx0, before, marks)
    ensures RowsMarked(r, chunkU, cx0, from, y + 1, marks)
  {
    forall i | 0 <= i < |marks.occupied|
      ensures marks.occupied[i] <==> RowsOccupy(r, chunkU, cx0 + i, from, y + 1)
    {
      var cu := cx0 + i;
      SpansAreTheRow(r, chunkU, y, spans, cu);
      if RowsOccupy(r, chunkU, cu, from, y) {
        var v: nat :| from <= v < y && RowOccupies(r, chunkU, cu, v);
        assert RowsOccupy(r, chunkU, cu, from, y + 1);
      }
      if RowsOccupy(r, chunkU, cu, from, y + 1) && !RowsOccupy(r, chunkU, cu, from, y) {
        var v: nat :| from <= v < y + 1 && RowOccupies(r, chunkU, cu, v);
        assert v == y;
      }
    }
  }

  // ---- One chunk row, and the whole region ----

  // The rows of the region in chunk row cy.
  function FirstRow(r: PlacedRegion, chunkV: nat, cy: nat): nat { B.Max(r.vStart, cy * chunkV) }
  function LastRow(r: PlacedRegion, chunkV: nat, cy: nat): nat { B.Min(r.vStart + r.vSize, (cy + 1) * chunkV) }

  // One chunk row's columns, stopping once every one of them is accounted for.
  method ScanChunkRow(r: PlacedRegion, g: Grid, cx0: nat, columns: nat, cy: nat) returns (marks: Marks)
    requires g.Valid() && Valid(r) && ColumnsFit(r, g.chunkU, cx0, columns)
    requires r.vStart / g.chunkV <= cy <= (r.vStart + r.vSize - 1) / g.chunkV
    ensures |marks.occupied| == columns
    ensures forall i :: 0 <= i < columns ==> (marks.occupied[i] <==> Occupies(r, g, cx0 + i, cy))
  {
    marks := Marks(seq(columns, _ => false), 0);
    var first, last := FirstRow(r, g.chunkV, cy), LastRow(r, g.chunkV, cy);
    RowsInside(r, g.chunkV, cy);
    NothingFound(columns);
    var y := first;
    assert RowsMarked(r, g.chunkU, cx0, first, first, marks);
    hide *;
    while y < last && marks.found < columns
      invariant first <= y <= last && |marks.occupied| == columns && RowsMarked(r, g.chunkU, cx0, first, y, marks)
    {
      marks := MarkRow(r, g.chunkU, cx0, first, y, marks);
      y := y + 1;
    }
    ChunkRowDone(r, g, cx0, columns, cy, y, marks);
  }

  lemma {:induction false} NothingFound(columns: nat)
    ensures TrueCount(seq(columns, _ => false)) == 0
  {
    if columns > 0 {
      NothingFound(columns - 1);
      assert seq(columns, _ => false)[..columns - 1] == seq(columns - 1, _ => false);
    }
  }

  lemma RowsInside(r: PlacedRegion, chunkV: nat, cy: nat)
    requires chunkV > 0 && r.vSize > 0
    requires r.vStart / chunkV <= cy <= (r.vStart + r.vSize - 1) / chunkV
    ensures r.vStart <= FirstRow(r, chunkV, cy) <= LastRow(r, chunkV, cy) <= r.vStart + r.vSize
  {
    B.AtOrPast(cy + 1, r.vStart, chunkV);
    B.AtOrPast(cy, r.vStart + r.vSize - 1, chunkV);
    assert (cy + 1) * chunkV == cy * chunkV + chunkV;
  }

  // Whether the scan went through every row or stopped with every column found.
  lemma ChunkRowDone(r: PlacedRegion, g: Grid, cx0: nat, columns: nat, cy: nat, y: nat, marks: Marks)
    requires g.Valid() && r.vSize > 0 && |marks.occupied| == columns
    requires FirstRow(r, g.chunkV, cy) <= y <= LastRow(r, g.chunkV, cy)
    requires RowsMarked(r, g.chunkU, cx0, FirstRow(r, g.chunkV, cy), y, marks)
    requires y == LastRow(r, g.chunkV, cy) || marks.found >= columns
    ensures forall i :: 0 <= i < columns ==> (marks.occupied[i] <==> Occupies(r, g, cx0 + i, cy))
  {
    forall i | 0 <= i < columns ensures marks.occupied[i] <==> Occupies(r, g, cx0 + i, cy) {
      if marks.occupied[i] {
        var v: nat :| FirstRow(r, g.chunkV, cy) <= v < y && RowOccupies(r, g.chunkU, cx0 + i, v);
        var u: nat :| Selected(r, u, v) && u / g.chunkU == cx0 + i;
        B.DivIs(v, g.chunkV, cy);
        assert InCell(r, g, cx0 + i, cy, u, v);
      }
      if Occupies(r, g, cx0 + i, cy) {
        var u: nat, v: nat :| InCell(r, g, cx0 + i, cy, u, v);
        B.DivIs(v, g.chunkV, cy);
        assert RowOccupies(r, g.chunkU, cx0 + i, v);
        if y == LastRow(r, g.chunkV, cy) {
          assert RowsOccupy(r, g.chunkU, cx0 + i, FirstRow(r, g.chunkV, cy), y);
        }
      }
    }
  }

  // The region's chunks lie on the grid.
  ghost predicate OnGrid(r: PlacedRegion, g: Grid, rows: nat) {
    && g.Valid() && Valid(r)
    && g.cu0 <= r.uStart / g.chunkU && (r.uStart + r.uSize - 1) / g.chunkU < g.cu0 + g.columns
    && g.cv0 <= r.vStart / g.chunkV && (r.vStart + r.vSize - 1) / g.chunkV < g.cv0 + rows
  }

  // A cell the region occupies is under its box.
  lemma OccupiedUnderBox(r: PlacedRegion, g: Grid, cu: nat, cv: nat)
    requires g.Valid() && Occupies(r, g, cu, cv)
    ensures r.uSize > 0 && r.vSize > 0
    ensures r.uStart / g.chunkU <= cu <= (r.uStart + r.uSize - 1) / g.chunkU
    ensures r.vStart / g.chunkV <= cv <= (r.vStart + r.vSize - 1) / g.chunkV
  {
    var u: nat, v: nat :| InCell(r, g, cu, cv, u, v);
    B.DivMono(r.uStart, u, g.chunkU);
    B.DivMono(u, r.uStart + r.uSize - 1, g.chunkU);
    B.DivMono(r.vStart, v, g.chunkV);
    B.DivMono(v, r.vStart + r.vSize - 1, g.chunkV);
  }


  // Cells of one grid row left or right of the region's box, and whole rows above or below it, are
  // none of the region's.
  lemma RowGap(r: PlacedRegion, g: Grid, rows: nat, row: nat, a: nat, b: nat)
    requires OnGrid(r, g, rows) && a <= b <= g.columns
    requires b <= r.uStart / g.chunkU - g.cu0 || a > (r.uStart + r.uSize - 1) / g.chunkU - g.cu0
    ensures CellsBelow(r, g, row * g.columns + a) == CellsBelow(r, g, row * g.columns + b)
  {
    forall n | row * g.columns + a <= n < row * g.columns + b ensures !OccupiesCell(r, g, n) {
      B.DivMod(row, n - row * g.columns, g.columns);
      if OccupiesCell(r, g, n) {
        OccupiedUnderBox(r, g, g.cu0 + n % g.columns, g.cv0 + n / g.columns);
      }
    }
    NoneBetween(r, g, row * g.columns + a, row * g.columns + b);
  }

  lemma RowsGap(r: PlacedRegion, g: Grid, rows: nat, a: nat, b: nat)
    requires OnGrid(r, g, rows) && a <= b
    requires b <= r.vStart / g.chunkV - g.cv0 || a > (r.vStart + r.vSize - 1) / g.chunkV - g.cv0
    ensures CellsBelow(r, g, a * g.columns) == CellsBelow(r, g, b * g.columns)
  {
    B.MulMono(a, b, g.columns);
    forall n | a * g.columns <= n < b * g.columns ensures !OccupiesCell(r, g, n) {
      B.AtOrPast(a, n, g.columns);
      B.AtOrPast(b, n, g.columns);
      if OccupiesCell(r, g, n) {
        OccupiedUnderBox(r, g, g.cu0 + n % g.columns, g.cv0 + n / g.columns);
      }
    }
    NoneBetween(r, g, a * g.columns, b * g.columns);
  }

  // What the scan has recorded when every cell below n has been looked at.
  ghost predicate Recorded(r: PlacedRegion, g: Grid, n: nat, before: seq<nat>, incidences: seq<nat>, tooMany: bool)
    requires g.Valid()
  {
    && |incidences| <= MAX_CHUNK_INCIDENCES
    && (!tooMany ==> incidences == before + CellsBelow(r, g, n))
    && (tooMany ==> |before| + |CellsBelow(r, g, n)| > MAX_CHUNK_INCIDENCES)
  }

  // One column of a chunk row: its cell is recorded when it is marked.
  lemma RecordOne(r: PlacedRegion, g: Grid, row: nat, column: nat, before: seq<nat>, incidences: seq<nat>,
                  tooMany: bool, occupied: bool)
    requires g.Valid() && column < g.columns && Recorded(r, g, row * g.columns + column, before, incidences, tooMany)
    requires occupied <==> Occupies(r, g, g.cu0 + column, g.cv0 + row)
    ensures var n := row * g.columns + column;
            var full := |incidences| == MAX_CHUNK_INCIDENCES;
            Recorded(r, g, n + 1, before, if occupied && !full then incidences + [n] else incidences,
                     tooMany || (occupied && full))
  {
    var n := row * g.columns + column;
    B.DivMod(row, column, g.columns);
    assert OccupiesCell(r, g, n) <==> occupied;
    assert before + CellsBelow(r, g, n + 1) == before + CellsBelow(r, g, n) + if occupied then [n] else [];
  }

  lemma SameRecorded(r: PlacedRegion, g: Grid, n: nat, m: nat, before: seq<nat>, incidences: seq<nat>, tooMany: bool)
    requires g.Valid() && Recorded(r, g, n, before, incidences, tooMany)
    requires CellsBelow(r, g, n) == CellsBelow(r, g, m) || (tooMany && n <= m)
    ensures Recorded(r, g, m, before, incidences, tooMany)
  {
    if n <= m { CellsBelowGrow(r, g, n, m); }
  }

  // The columns of one chunk row, in order, onto the end of the incidences.
  method RecordRow(r: PlacedRegion, g: Grid, ghost rows: nat, cx0: nat, cx1: nat, cy: nat, ghost before: seq<nat>,
                   incidences: seq<nat>)
    returns (incidences': seq<nat>, tooMany: bool)
    requires OnGrid(r, g, rows) && cx0 == r.uStart / g.chunkU && cx1 == (r.uStart + r.uSize - 1) / g.chunkU
    requires r.vStart / g.chunkV <= cy <= (r.vStart + r.vSize - 1) / g.chunkV && cx0 <= cx1
    requires Recorded(r, g, (cy - g.cv0) * g.columns, before, incidences, false)
    ensures Recorded(r, g, (cy - g.cv0 + 1) * g.columns, before, incidences', tooMany)
  {
    hide *;
    BoxChunks(r, g, rows);
    ghost var row := cy - g.cv0;
    BoxColumns(r, g);
    BeginRow(r, g, rows, row, cx0 - g.cu0, before, incidences);
    var marks := ScanChunkRow(r, g, cx0, cx1 - cx0 + 1, cy);
    incidences', tooMany := incidences, false;
    for cx := cx0 to cx1 + 1
      invariant Recorded(r, g, row * g.columns + (cx - g.cu0), before, incidences', tooMany)
    {
      RecordOne(r, g, row, cx - g.cu0, before, incidences', tooMany, marks.occupied[cx - cx0]);
      CellNumber(g, cx, cy);
      if marks.occupied[cx - cx0] {
        if |incidences'| == MAX_CHUNK_INCIDENCES {
          tooMany := true;
        } else {
          incidences' := incidences' + [g.Cell(cx, cy)];
        }
      }
    }
    EndRow(r, g, rows, row, cx1 + 1 - g.cu0, before, incidences', tooMany);
  }

  lemma BeginRow(r: PlacedRegion, g: Grid, rows: nat, row: nat, x0: nat, before: seq<nat>, incidences: seq<nat>)
    requires OnGrid(r, g, rows) && Recorded(r, g, row * g.columns, before, incidences, false)
    requires g.cu0 + x0 == r.uStart / g.chunkU && x0 <= g.columns
    ensures Recorded(r, g, row * g.columns + x0, before, incidences, false)
  {
    RowGap(r, g, rows, row, 0, x0);
    hide Recorded, CellsBelow, Regions.Valid;
    assert row * g.columns + 0 == row * g.columns;
    SameRecorded(r, g, row * g.columns, row * g.columns + x0, before, incidences, false);
  }

  lemma BoxColumns(r: PlacedRegion, g: Grid)
    requires g.chunkU > 0 && r.uSize > 0
    ensures r.uStart / g.chunkU <= (r.uStart + r.uSize - 1) / g.chunkU
    ensures ColumnsFit(r, g.chunkU, r.uStart / g.chunkU, (r.uStart + r.uSize - 1) / g.chunkU - r.uStart / g.chunkU + 1)
  {
    B.DivMono(r.uStart, r.uStart + r.uSize - 1, g.chunkU);
  }

  lemma CellNumber(g: Grid, cu: nat, cv: nat)
    requires cu >= g.cu0 && cv >= g.cv0
    ensures g.Cell(cu, cv) == (cv - g.cv0) * g.columns + (cu - g.cu0)
  {}

  lemma EndRow(r: PlacedRegion, g: Grid, rows: nat, row: nat, x1: nat, before: seq<nat>, incidences: seq<nat>,
               tooMany: bool)
    requires OnGrid(r, g, rows) && g.cu0 + x1 == (r.uStart + r.uSize - 1) / g.chunkU + 1 && x1 <= g.columns
    requires Recorded(r, g, row * g.columns + x1, before, incidences, tooMany)
    ensures Recorded(r, g, (row + 1) * g.columns, before, incidences, tooMany)
  {
    RowGap(r, g, rows, row, x1, g.columns);
    hide Recorded, CellsBelow, Regions.Valid;
    assert (row + 1) * g.columns == row * g.columns + g.columns;
    SameRecorded(r, g, row * g.columns + x1, (row + 1) * g.columns, before, incidences, tooMany);
  }

  // Every cell the region occupies, in order, onto the end of the incidences, unless they pass what
  // one reduction indexes.
  method ScanRegion(r: PlacedRegion, g: Grid, ghost rows: nat, incidences: seq<nat>)
    returns (incidences': seq<nat>, tooMany: bool)
    requires OnGrid(r, g, rows) && |incidences| <= MAX_CHUNK_INCIDENCES
    ensures Recorded(r, g, rows * g.columns, incidences, incidences', tooMany)
  {
    hide *;
    BoxChunks(r, g, rows);
    var cx0, cx1 := r.uStart / g.chunkU, (r.uStart + r.uSize - 1) / g.chunkU;
    var cy0, cy1 := r.vStart / g.chunkV, (r.vStart + r.vSize - 1) / g.chunkV;
    incidences', tooMany := incidences, false;
    NothingRecorded(r, g, rows, cy0, incidences);
    var cy := cy0;
    while cy <= cy1 && !tooMany
      invariant cy0 <= cy <= cy1 + 1
      invariant Recorded(r, g, (cy - g.cv0) * g.columns, incidences, incidences', tooMany)
    {
      incidences', tooMany := RecordRow(r, g, rows, cx0, cx1, cy, incidences, incidences');
      cy := cy + 1;
    }
    AllRecorded(r, g, rows, cy, incidences, incidences', tooMany);
  }

  lemma BoxChunks(r: PlacedRegion, g: Grid, rows: nat)
    requires OnGrid(r, g, rows)
    ensures g.Valid() && g.chunkU > 0 && g.chunkV > 0 && r.uSize > 0 && r.vSize > 0
    ensures g.cu0 <= r.uStart / g.chunkU <= (r.uStart + r.uSize - 1) / g.chunkU < g.cu0 + g.columns && Valid(r)
    ensures g.cv0 <= r.vStart / g.chunkV <= (r.vStart + r.vSize - 1) / g.chunkV
  {
    B.DivMono(r.uStart, r.uStart + r.uSize - 1, g.chunkU);
    B.DivMono(r.vStart, r.vStart + r.vSize - 1, g.chunkV);
  }

  lemma NothingRecorded(r: PlacedRegion, g: Grid, rows: nat, cy0: nat, incidences: seq<nat>)
    requires OnGrid(r, g, rows) && cy0 == r.vStart / g.chunkV && |incidences| <= MAX_CHUNK_INCIDENCES
    ensures Recorded(r, g, (cy0 - g.cv0) * g.columns, incidences, incidences, false)
  {
    RowsGap(r, g, rows, 0, cy0 - g.cv0);
    assert 0 * g.columns == 0;
  }

  lemma AllRecorded(r: PlacedRegion, g: Grid, rows: nat, cy: nat, before: seq<nat>, incidences: seq<nat>, tooMany: bool)
    requires OnGrid(r, g, rows) && g.cv0 <= cy <= (r.vStart + r.vSize - 1) / g.chunkV + 1
    requires tooMany || cy > (r.vStart + r.vSize - 1) / g.chunkV
    requires Recorded(r, g, (cy - g.cv0) * g.columns, before, incidences, tooMany)
    ensures Recorded(r, g, rows * g.columns, before, incidences, tooMany)
  {
    if !tooMany { RowsGap(r, g, rows, cy - g.cv0, rows); }
    B.MulMono(cy - g.cv0, rows, g.columns);
    SameRecorded(r, g, (cy - g.cv0) * g.columns, rows * g.columns, before, incidences, tooMany);
  }
}
