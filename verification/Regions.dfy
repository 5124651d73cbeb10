// A region placed on the walk's axes, and the spans of it a walk reads: src/reduce/occupancy.h.

module Regions {
  import opened Wrappers
  import opened RegionRuns
  import B = ChunkBlocks

  // A caller's raster: none, or one byte a pixel of the region's box, row by row. A view of no data
  // still carries a size, which has to be zero.
  datatype Mask = NoMask(size: nat) | Raster(bytes: seq<Byte>)

  datatype RegionMask = RegionMask(xStart: nat, yStart: nat, width: nat, height: nat, mask: Mask)

  // What the caller selected, in the caller's own axes.
  ghost predicate Picks(given: RegionMask, x: nat, y: nat) {
    && given.xStart <= x < given.xStart + given.width
    && given.yStart <= y < given.yStart + given.height
    && (given.mask.NoMask? || Sel(given.mask.bytes, given.width, x - given.xStart, y - given.yStart))
  }

  // A rectangle on the walk's axes u and v, with the caller's raster and the steps through it.
  datatype PlacedRegion = PlacedRegion(
    uStart: nat, vStart: nat, uSize: nat, vSize: nat,
    mask: Option<seq<Byte>>, maskUStride: nat, maskVStride: nat, runs: Option<Runs>)

  predicate Bit(mask: seq<Byte>, at: nat) {
    at < |mask| && mask[at] != 0
  }

  ghost predicate Selected(r: PlacedRegion, u: nat, v: nat) {
    && r.uStart <= u < r.uStart + r.uSize
    && r.vStart <= v < r.vStart + r.vSize
    && (r.mask.Some? ==> Bit(r.mask.value, (v - r.vStart) * r.maskVStride + (u - r.uStart) * r.maskUStride))
  }

  // Row v of the region's raster, as a line along u.
  ghost function LineOf(r: PlacedRegion, v: nat): seq<bool>
    requires r.mask.Some?
  {
    seq(r.uSize, u requires u >= 0 => Bit(r.mask.value, v * r.maskVStride + u * r.maskUStride))
  }

  ghost function LinesOf(r: PlacedRegion): seq<seq<bool>>
    requires r.mask.Some?
  {
    seq(r.vSize, v requires v >= 0 => LineOf(r, v))
  }

  ghost predicate Valid(r: PlacedRegion) {
    && r.uSize > 0 && r.vSize > 0
    && (r.runs.Some? ==> r.mask.Some? && Encodes(r.runs.value, LinesOf(r)))
  }

  // ---- Placing ----

  // A caller's region put on the walk's axes, still without runs: swapping the axes swaps the two steps
  // through the raster and leaves the raster alone.
  function Plain(given: RegionMask, swapSpatial: bool): PlacedRegion {
    PlacedRegion(
      if swapSpatial then given.yStart else given.xStart,
      if swapSpatial then given.xStart else given.yStart,
      if swapSpatial then given.height else given.width,
      if swapSpatial then given.width else given.height,
      if given.mask.Raster? then Some(given.mask.bytes) else None,
      if swapSpatial then given.width else 1,
      if swapSpatial then 1 else given.width,
      None)
  }

  method Place(given: RegionMask, swapSpatial: bool) returns (r: PlacedRegion)
    requires given.width > 0 && given.height > 0
    requires given.mask.Raster? ==> |given.mask.bytes| == given.width * given.height
    ensures Valid(r) && Places(r, given, swapSpatial)
  {
    r := Plain(given, swapSpatial);
    if given.mask.Raster? {
      var taken, made := RunsAlongU(given.mask.bytes, given.width, given.height, !swapSpatial);
      LinesAgree(r, given, swapSpatial);
      if taken {
        r := r.(runs := Some(made));
        assert LinesOf(r) == Lines(given.mask.bytes, given.width, given.height, !swapSpatial);
      }
    }
  }

  // What placing keeps: everything but the runs.
  ghost predicate Places(r: PlacedRegion, given: RegionMask, swapSpatial: bool) {
    r == Plain(given, swapSpatial).(runs := r.runs)
  }

  lemma StepsAgree(r: PlacedRegion, given: RegionMask, swapSpatial: bool, u: nat, v: nat)
    requires Places(r, given, swapSpatial)
    ensures v * r.maskVStride + u * r.maskUStride
         == (if swapSpatial then u else v) * given.width + (if swapSpatial then v else u)
  {}

  lemma LinesAgree(r: PlacedRegion, given: RegionMask, swapSpatial: bool)
    requires given.mask.Raster? && Places(r, given, swapSpatial)
    ensures LinesOf(r) == Lines(given.mask.bytes, given.width, given.height, !swapSpatial)
  {
    var a, b := LinesOf(r), Lines(given.mask.bytes, given.width, given.height, !swapSpatial);
    forall v | 0 <= v < r.vSize ensures a[v] == b[v] {
      forall u | 0 <= u < r.uSize ensures a[v][u] == b[v][u] {
        StepsAgree(r, given, swapSpatial, u, v);
      }
    }
  }

  // A placed region selects, on the walk's axes, exactly what the caller picked on the image's.
  lemma PlacedSelects(r: PlacedRegion, given: RegionMask, swapSpatial: bool, u: nat, v: nat)
    requires Places(r, given, swapSpatial)
    ensures Selected(r, u, v) <==> Picks(given, if swapSpatial then v else u, if swapSpatial then u else v)
  {
    if u >= r.uStart && v >= r.vStart {
      StepsAgree(r, given, swapSpatial, u - r.uStart, v - r.vStart);
    }
  }

  // ---- Rows and spans ----

  // Bounds on the rows of a region that a box can share with it; empty when they are apart.
  function RowsWithin(r: PlacedRegion, u0: nat, u1: nat, v0: nat, v1: nat): (rows: (nat, nat))
    ensures forall u, v :: u0 <= u < u1 && v0 <= v < v1 && Selected(r, u, v) ==> rows.0 <= v < rows.1
    ensures rows.0 < rows.1 ==> v0 <= rows.0 && rows.1 <= v1 && r.vStart <= rows.0 && rows.1 <= r.vStart + r.vSize
  {
    var firstU, lastU := B.Max(u0, r.uStart), B.Min(u1, r.uStart + r.uSize);
    var firstV, lastV := B.Max(v0, r.vStart), B.Min(v1, r.vStart + r.vSize);
    if firstU >= lastU || firstV >= lastV then (0, 0) else (firstV, lastV)
  }

  // The pixels [first, last): every one selected, or read through the raster from `selected` on.
  datatype Span = Span(first: nat, last: nat, selected: Option<nat>, step: nat)

  predicate Covers(r: PlacedRegion, span: Span, u: nat) {
    && span.first <= u < span.last
    && (span.selected.Some? ==>
          r.mask.Some? && Bit(r.mask.value, span.selected.value + (u - span.first) * span.step))
  }

  ghost predicate CoveredBy(r: PlacedRegion, spans: seq<Span>, u: nat) {
    exists i :: 0 <= i < |spans| && Covers(r, spans[i], u)
  }

  // The spans of one row inside [u0, u1): in order, apart, and covering exactly the selected pixels.
  ghost predicate SpansOf(r: PlacedRegion, y: nat, u0: nat, u1: nat, spans: seq<Span>) {
    && (forall i :: 0 <= i < |spans| ==>
          u0 <= spans[i].first < spans[i].last <= u1
          && r.uStart <= spans[i].first && spans[i].last <= r.uStart + r.uSize)
    && (forall i, j :: 0 <= i < j < |spans| ==> spans[i].last <= spans[j].first)
    && (forall u :: u0 <= u < u1 ==> (Selected(r, u, y) <==> CoveredBy(r, spans, u)))
    && (forall i :: 0 <= i < |spans| && spans[i].selected.Some? ==> r.mask.Some?)
  }

  method ForEachSpan(r: PlacedRegion, y: nat, u0: nat, u1: nat) returns (spans: seq<Span>)
    requires Valid(r) && r.vStart <= y < r.vStart + r.vSize
    ensures SpansOf(r, y, u0, u1, spans)
  {
    var first, last := B.Max(u0, r.uStart), B.Min(u1, r.uStart + r.uSize);
    if first >= last {
      return [];
    }
    if r.runs.Some? {
      spans := SpansOfRuns(r, y, u0, u1);
      return;
    }
    var selected := if r.mask.None? then None else Some(MaskAt(r, first, y));
    var span := Span(first, last, selected, if r.mask.None? then 1 else r.maskUStride);
    spans := [span];
    OneSpan(r, y, u0, u1, span);
    hide *;
  }

  // Where the raster of a placed region holds a pixel of its box.
  function MaskAt(r: PlacedRegion, u: nat, v: nat): nat
    requires r.uStart <= u && r.vStart <= v
  {
    (v - r.vStart) * r.maskVStride + (u - r.uStart) * r.maskUStride
  }

  lemma OneSpan(r: PlacedRegion, y: nat, u0: nat, u1: nat, span: Span)
    requires r.vStart <= y < r.vStart + r.vSize
    requires span.first == B.Max(u0, r.uStart) < span.last == B.Min(u1, r.uStart + r.uSize)
    requires r.mask.None? ==> span.selected.None?
    requires r.mask.Some? ==> span.selected == Some(MaskAt(r, span.first, y)) && span.step == r.maskUStride
    ensures SpansOf(r, y, u0, u1, [span])
  {
    forall u: nat | u0 <= u < u1 ensures Selected(r, u, y) <==> CoveredBy(r, [span], u) {
      if span.first <= u < span.last {
        assert (u - r.uStart) * r.maskUStride
            == (span.first - r.uStart) * r.maskUStride + (u - span.first) * r.maskUStride;
      }
      assert Covers(r, [span][0], u) ==> CoveredBy(r, [span], u);
    }
  }

  // Run k of the region's row, in pixels of the plane.
  function RunBegin(r: PlacedRegion, k: nat): nat
    requires r.runs.Some? && 2 * k + 1 < |r.runs.value.runs|
  {
    r.uStart + r.runs.value.runs[2 * k]
  }

  function RunEnd(r: PlacedRegion, k: nat): nat
    requires r.runs.Some? && 2 * k + 1 < |r.runs.value.runs|
  {
    r.uStart + r.runs.value.runs[2 * k + 1]
  }

  ghost predicate InRuns(r: PlacedRegion, from: nat, to: nat, u: nat)
    requires r.runs.Some? && 2 * to <= |r.runs.value.runs|
  {
    exists k :: from <= k < to && RunBegin(r, k) <= u < RunEnd(r, k)
  }

  // Where one row's runs begin and end.
  function RowFrom(r: PlacedRegion, y: nat): nat
    requires Valid(r) && r.runs.Some? && r.vStart <= y < r.vStart + r.vSize
  {
    r.runs.value.offsets[y - r.vStart]
  }

  function RowTo(r: PlacedRegion, y: nat): nat
    requires Valid(r) && r.runs.Some? && r.vStart <= y < r.vStart + r.vSize
  {
    r.runs.value.offsets[y - r.vStart + 1]
  }

  // The stored runs of a row are the edges of its line.
  lemma RowRuns(r: PlacedRegion, y: nat)
    requires Valid(r) && r.runs.Some? && r.vStart <= y < r.vStart + r.vSize
    ensures RowFrom(r, y) <= RowTo(r, y) && 2 * RowTo(r, y) <= |r.runs.value.runs| && r.mask.Some?
    ensures r.runs.value.runs[2 * RowFrom(r, y)..2 * RowTo(r, y)] == AllEdges(LineOf(r, y - r.vStart))
  {
    assert LinesOf(r)[y - r.vStart] == LineOf(r, y - r.vStart);
    LineRuns(r.runs.value, LinesOf(r), y - r.vStart);
  }

  lemma RunAt(r: PlacedRegion, from: nat, to: nat, e: seq<nat>, k: nat)
    requires r.runs.Some? && from <= to && 2 * to <= |r.runs.value.runs| && e == r.runs.value.runs[2 * from..2 * to]
    requires from <= k < to
    ensures RunBegin(r, k) == r.uStart + e[2 * (k - from)] && RunEnd(r, k) == r.uStart + e[2 * (k - from) + 1]
  {}

  // One row's runs lie inside the region, in order.
  lemma RowRunsAscend(r: PlacedRegion, y: nat, j: nat, k: nat)
    requires Valid(r) && r.runs.Some? && r.vStart <= y < r.vStart + r.vSize
    requires RowFrom(r, y) <= j <= k < RowTo(r, y) && 2 * RowTo(r, y) <= |r.runs.value.runs|
    ensures RunBegin(r, k) < RunEnd(r, k) <= r.uStart + r.uSize
    ensures j < k ==> RunEnd(r, j) <= RunBegin(r, k)
  {
    RowRuns(r, y);
    var line := LineOf(r, y - r.vStart);
    assert |line| == r.uSize;
    EdgesAscend(line, |line| + 1);
    RunAt(r, RowFrom(r, y), RowTo(r, y), AllEdges(line), j);
    RunAt(r, RowFrom(r, y), RowTo(r, y), AllEdges(line), k);
    hide Edges, LineOf, RunBegin, RunEnd, Valid;
  }

  // And hold exactly its selected pixels.
  lemma RowRunsSelect(r: PlacedRegion, y: nat, u: nat)
    requires Valid(r) && r.runs.Some? && r.vStart <= y < r.vStart + r.vSize
    requires RowFrom(r, y) <= RowTo(r, y) && 2 * RowTo(r, y) <= |r.runs.value.runs|
    ensures Selected(r, u, y) <==> InRuns(r, RowFrom(r, y), RowTo(r, y), u)
  {
    hide *;
    RowRuns(r, y);
    OutsideIsUnselected(r, u, y);
    RunsOfEdges(r, RowFrom(r, y), RowTo(r, y), AllEdges(LineOf(r, y - r.vStart)), u);
    if u >= r.uStart {
      SelectedOnLine(r, u, y);
      RunsAreTheLine(LineOf(r, y - r.vStart), u - r.uStart);
    }
  }

  lemma RunsOfEdges(r: PlacedRegion, from: nat, to: nat, e: seq<nat>, u: nat)
    requires r.runs.Some? && from <= to && 2 * to <= |r.runs.value.runs| && e == r.runs.value.runs[2 * from..2 * to]
    ensures InRuns(r, from, to, u) <==> u >= r.uStart && InSomeRun(e, u - r.uStart)
  {
    if InRuns(r, from, to, u) {
      var k: nat :| from <= k < to && RunBegin(r, k) <= u < RunEnd(r, k);
      RunAt(r, from, to, e, k);
      assert InRun(e, k - from, u - r.uStart);
    }
    if u >= r.uStart && InSomeRun(e, u - r.uStart) {
      var i :| InRun(e, i, u - r.uStart);
      RunAt(r, from, to, e, from + i);
      assert RunBegin(r, from + i) <= u < RunEnd(r, from + i);
    }
  }

  lemma SelectedOnLine(r: PlacedRegion, u: nat, y: nat)
    requires Valid(r) && r.runs.Some? && r.mask.Some? && r.vStart <= y < r.vStart + r.vSize && u >= r.uStart
    ensures Selected(r, u, y) <==> On(LineOf(r, y - r.vStart), u - r.uStart)
  {}

  lemma OutsideIsUnselected(r: PlacedRegion, u: nat, v: nat)
    ensures Selected(r, u, v) ==> r.uStart <= u < r.uStart + r.uSize
  {}

  // What the spans cover once the first k runs of the row have been clipped to [first, last).
  ghost predicate SpansSoFar(r: PlacedRegion, from: nat, k: nat, first: nat, last: nat, spans: seq<Span>)
    requires r.runs.Some? && 2 * k <= |r.runs.value.runs|
  {
    && (forall i :: 0 <= i < |spans| ==> first <= spans[i].first < spans[i].last <= last && spans[i].selected.None?)
    && (forall i, j :: 0 <= i < j < |spans| ==> spans[i].last <= spans[j].first)
    && (forall u: nat :: first <= u < last ==> (InRuns(r, from, k, u) <==> CoveredBy(r, spans, u)))
    && (from < k ==> forall i :: 0 <= i < |spans| ==> spans[i].last <= RunEnd(r, k - 1))
    && (from == k ==> spans == [])
  }

  method SpansOfRuns(r: PlacedRegion, y: nat, u0: nat, u1: nat) returns (spans: seq<Span>)
    requires Valid(r) && r.runs.Some? && r.vStart <= y < r.vStart + r.vSize
    requires B.Max(u0, r.uStart) < B.Min(u1, r.uStart + r.uSize)
    ensures SpansOf(r, y, u0, u1, spans)
  {
    hide *;
    RowRuns(r, y);
    var first, last := B.Max(u0, r.uStart), B.Min(u1, r.uStart + r.uSize);
    var k, end := RowFrom(r, y), RowTo(r, y);
    ghost var from := k;
    spans := [];
    NoSpans(r, from, first, last);
    while k < end
      invariant from <= k <= end
      invariant SpansSoFar(r, from, k, first, last, spans)
    {
      if RunBegin(r, k) >= last {
        break;
      }
      RowRunsAscend(r, y, if from < k then k - 1 else k, k);
      var span := Span(B.Max(first, RunBegin(r, k)), B.Min(last, RunEnd(r, k)), None, 1);
      OneMoreRun(r, from, k, first, last, spans, span);
      if span.first < span.last {
        spans := spans + [span];
      }
      k := k + 1;
    }
    RowIsSpanned(r, y, u0, u1, k, spans);
  }

  lemma NoSpans(r: PlacedRegion, from: nat, first: nat, last: nat)
    requires r.runs.Some? && 2 * from <= |r.runs.value.runs|
    ensures SpansSoFar(r, from, from, first, last, [])
  {}

  lemma OneMoreRun(r: PlacedRegion, from: nat, k: nat, first: nat, last: nat, spans: seq<Span>, span: Span)
    requires r.runs.Some? && from <= k && 2 * (k + 1) <= |r.runs.value.runs|
    requires SpansSoFar(r, from, k, first, last, spans)
    requires RunBegin(r, k) < last && (from < k ==> RunEnd(r, k - 1) <= RunBegin(r, k)) && RunBegin(r, k) < RunEnd(r, k)
    requires span == Span(B.Max(first, RunBegin(r, k)), B.Min(last, RunEnd(r, k)), None, 1)
    ensures SpansSoFar(r, from, k + 1, first, last, if span.first < span.last then spans + [span] else spans)
  {
    var after := if span.first < span.last then spans + [span] else spans;
    forall u: nat | first <= u < last ensures InRuns(r, from, k + 1, u) <==> CoveredBy(r, after, u) {
      OneMoreSpan(r, spans, after, span, u);
      if InRuns(r, from, k, u) {
        var j :| from <= j < k && RunBegin(r, j) <= u < RunEnd(r, j);
        assert InRuns(r, from, k + 1, u);
      }
      assert RunBegin(r, k) <= u < RunEnd(r, k) ==> InRuns(r, from, k + 1, u);
      assert InRuns(r, from, k + 1, u) ==> InRuns(r, from, k, u) || RunBegin(r, k) <= u < RunEnd(r, k);
    }
  }

  lemma RowIsSpanned(r: PlacedRegion, y: nat, u0: nat, u1: nat, k: nat, spans: seq<Span>)
    requires Valid(r) && r.runs.Some? && r.vStart <= y < r.vStart + r.vSize
    requires B.Max(u0, r.uStart) < B.Min(u1, r.uStart + r.uSize)
    requires RowFrom(r, y) <= k <= RowTo(r, y) && 2 * RowTo(r, y) <= |r.runs.value.runs|
    requires k < RowTo(r, y) ==> RunBegin(r, k) >= B.Min(u1, r.uStart + r.uSize)
    requires SpansSoFar(r, RowFrom(r, y), k, B.Max(u0, r.uStart), B.Min(u1, r.uStart + r.uSize), spans)
    ensures SpansOf(r, y, u0, u1, spans)
  {
    forall u: nat | u0 <= u < u1 ensures Selected(r, u, y) <==> CoveredBy(r, spans, u) {
      hide Selected, RowFrom, RowTo, Valid, Covers, InRuns, CoveredBy, RunBegin, RunEnd;
      RowRunsSelect(r, y, u);
      OutsideIsUnselected(r, u, y);
      if u < r.uStart + r.uSize { NoneFrom(r, y, k, u); }
      NotCoveredOutside(r, spans, B.Max(u0, r.uStart), B.Min(u1, r.uStart + r.uSize), u);
    }
  }

  lemma NotCoveredOutside(r: PlacedRegion, spans: seq<Span>, first: nat, last: nat, u: nat)
    requires forall i :: 0 <= i < |spans| ==> first <= spans[i].first < spans[i].last <= last
    ensures CoveredBy(r, spans, u) ==> first <= u < last
  {}

  // A run past u, and every one after it, does not hold u.
  lemma NoneFrom(r: PlacedRegion, y: nat, k: nat, u: nat)
    requires Valid(r) && r.runs.Some? && r.vStart <= y < r.vStart + r.vSize
    requires RowFrom(r, y) <= k <= RowTo(r, y) && 2 * RowTo(r, y) <= |r.runs.value.runs|
    requires k < RowTo(r, y) ==> u < RunBegin(r, k)
    ensures InRuns(r, RowFrom(r, y), RowTo(r, y), u) == InRuns(r, RowFrom(r, y), k, u)
  {
    hide Valid, RowFrom, RowTo, RunBegin, RunEnd;
    if InRuns(r, RowFrom(r, y), RowTo(r, y), u) {
      var j: nat :| RowFrom(r, y) <= j < RowTo(r, y) && RunBegin(r, j) <= u < RunEnd(r, j);
      if j >= k {
        RowRunsAscend(r, y, k, j);
        RowRunsAscend(r, y, k, k);
      }
    }
  }

  lemma OneMoreSpan(r: PlacedRegion, before: seq<Span>, spans: seq<Span>, span: Span, u: nat)
    requires span.selected.None?
    requires spans == before + [span] || (spans == before && span.first >= span.last)
    ensures CoveredBy(r, spans, u) <==> CoveredBy(r, before, u) || span.first <= u < span.last
  {
    if i :| 0 <= i < |before| && Covers(r, before[i], u) {
      assert spans[i] == before[i];
    }
    if span.first <= u < span.last {
      assert Covers(r, spans[|before|], u);
    }
  }
}
