// One read's worth of pixels into the slots of one task: accumulate_unit and the body of each task of
// accumulate_slab, src/reduce/spectral_reduce.cc.

module SlabReduction {
  import opened Values
  import opened Statistics
  import opened Slots
  import opened Regions
  import opened Accumulate
  import opened Footprints
  import O = Occupancies
  import G = CellScan
  import B = ChunkBlocks

  // ---- A slab ----

  // One read, as the visitor walks it: its pixels in the store's own order, and how far a step along
  // each axis moves in them.
  datatype Slab = Slab(firstChannel: nat, channelCount: nat, pixels: seq<Double>,
                       strideU: nat, strideV: nat, strideZ: nat, uCount: nat, vCount: nat)
  {
    function Place(du: nat, dv: nat, dz: nat): nat { dz * strideZ + dv * strideV + du * strideU }
  }

  // The slab holds the image over the footprint, from channel z of the selection on.
  ghost predicate SlabShows(slab: Slab, f: SlabFootprint, image: Image, z: nat) {
    forall du: nat, dv: nat, dz: nat :: du < f.uCount && dv < f.vCount && dz < slab.channelCount ==>
      && slab.Place(du, dv, dz) < |slab.pixels|
      && slab.pixels[slab.Place(du, dv, dz)]
          == image(Along(f.uStart, du, f.uStride), Along(f.vStart, dv, f.vStride), z + dz)
  }

  // ---- Sets of pixels ----

  ghost function PixelsIn(r: PlacedRegion, u0: nat, u1: nat, v0: nat, v1: nat): set<At> {
    set u: nat, v: nat | u0 <= u < u1 && v0 <= v < v1 && Selected(r, u, v) :: At(u, v)
  }

  ghost function CoveredPixels(r: PlacedRegion, y: nat, u0: nat, u1: nat, spans: seq<Span>): set<At> {
    set u: nat | u0 <= u < u1 && CoveredBy(r, spans, u) :: At(u, y)
  }

  lemma NoSpanCovers(r: PlacedRegion, y: nat, u0: nat, u1: nat, spans: seq<Span>)
    ensures CoveredPixels(r, y, u0, u1, spans[..0]) == {}
  {}

  lemma SpansCoverRow(r: PlacedRegion, y: nat, u0: nat, u1: nat, spans: seq<Span>)
    requires SpansOf(r, y, u0, u1, spans)
    ensures CoveredPixels(r, y, u0, u1, spans[..|spans|]) == PixelsIn(r, u0, u1, y, y + 1)
  {
    assert spans[..|spans|] == spans;
    hide CoveredBy, Selected;
  }

  // One span more covers pixels no span before it did.
  lemma OneMoreSpan(r: PlacedRegion, y: nat, u0: nat, u1: nat, spans: seq<Span>, k: nat, pixels: SpanPixels)
    requires SpansOf(r, y, u0, u1, spans) && k < |spans|
    requires pixels.count == spans[k].last - spans[k].first && pixels.selected == spans[k].selected
    requires pixels.step == spans[k].step && (r.mask.Some? ==> pixels.mask == r.mask.value)
    ensures CoveredPixels(r, y, u0, u1, spans[..k + 1])
         == CoveredPixels(r, y, u0, u1, spans[..k]) + TakenBelow(pixels, spans[k].first, y, pixels.count)
    ensures CoveredPixels(r, y, u0, u1, spans[..k]) !! TakenBelow(pixels, spans[k].first, y, pixels.count)
  {
    var span := spans[k];
    forall u: nat | u0 <= u < u1
      ensures CoveredBy(r, spans[..k + 1], u) <==> CoveredBy(r, spans[..k], u) || Covers(r, span, u)
      ensures !(CoveredBy(r, spans[..k], u) && Covers(r, span, u))
    {
      CoveredOneMore(r, spans, k, u);
    }
    forall u: nat ensures At(u, y) in TakenBelow(pixels, span.first, y, pixels.count) <==> Covers(r, span, u) {
      TakenIsCovered(r, span, pixels, y, u);
    }
    hide CoveredBy, Covers, SpanPixels.Takes;
    assert forall p :: p in TakenBelow(pixels, span.first, y, pixels.count) ==> p == At(p.u, y);
  }

  lemma CoveredOneMore(r: PlacedRegion, spans: seq<Span>, k: nat, u: nat)
    requires k < |spans| && forall i, j :: 0 <= i < j < |spans| ==> spans[i].last <= spans[j].first
    ensures CoveredBy(r, spans[..k + 1], u) <==> CoveredBy(r, spans[..k], u) || Covers(r, spans[k], u)
    ensures !(CoveredBy(r, spans[..k], u) && Covers(r, spans[k], u))
  {
    if CoveredBy(r, spans[..k], u) {
      var i :| 0 <= i < k && Covers(r, spans[..k][i], u);
      assert Covers(r, spans[..k + 1][i], u);
      assert spans[i].last <= spans[k].first;
    }
    if CoveredBy(r, spans[..k + 1], u) {
      var i :| 0 <= i < k + 1 && Covers(r, spans[..k + 1][i], u);
      if i < k { assert Covers(r, spans[..k][i], u); }
    }
    if Covers(r, spans[k], u) { assert Covers(r, spans[..k + 1][k], u); }
  }

  lemma TakenIsCovered(r: PlacedRegion, span: Span, pixels: SpanPixels, y: nat, u: nat)
    requires span.first <= span.last && pixels.count == span.last - span.first && pixels.selected == span.selected
    requires pixels.step == span.step && (span.selected.Some? ==> r.mask.Some? && pixels.mask == r.mask.value)
    ensures At(u, y) in TakenBelow(pixels, span.first, y, pixels.count) <==> Covers(r, span, u)
  {
    if Covers(r, span, u) {
      var i := u - span.first;
      assert pixels.Takes(i) && At(span.first + i, y) == At(u, y);
    }
  }

  // ---- One row of one region ----

  ghost predicate BoxInFootprint(f: SlabFootprint, u0: nat, u1: nat, v0: nat, v1: nat) {
    && f.uStride == 1 && f.vStride == 1
    && f.uStart <= u0 <= u1 <= f.uStart + f.uCount && f.vStart <= v0 <= v1 <= f.vStart + f.vCount
  }

  // A span's pixels, as the row's pointer finds them.
  function PixelsOfSpan(r: PlacedRegion, slab: Slab, f: SlabFootprint, channel: nat, y: nat, span: Span): SpanPixels
    requires y >= f.vStart && span.first >= f.uStart && span.last >= span.first
  {
    var plane := channel * slab.strideZ;
    var row := plane + (y - f.vStart) * slab.strideV;
    SpanPixels(slab.pixels, row + (span.first - f.uStart) * slab.strideU, slab.strideU, span.last - span.first,
               if r.mask.Some? then r.mask.value else [], span.selected, span.step)
  }

  lemma SpanShowsImage(r: PlacedRegion, slab: Slab, f: SlabFootprint, channel: nat, y: nat, span: Span, image: Image,
                       z: nat)
    requires SlabShows(slab, f, image, z) && f.uStride == 1 && f.vStride == 1 && channel < slab.channelCount
    requires f.vStart <= y < f.vStart + f.vCount && f.uStart <= span.first <= span.last <= f.uStart + f.uCount
    ensures ShowsImage(PixelsOfSpan(r, slab, f, channel, y, span), image, span.first, y, z + channel)
  {
    var pixels := PixelsOfSpan(r, slab, f, channel, y, span);
    forall i: nat | i < pixels.count
      ensures pixels.at + i * pixels.stride < |pixels.pixels|
      ensures pixels.pixels[pixels.at + i * pixels.stride] == image(span.first + i, y, z + channel)
    {
      var du, dv := span.first - f.uStart + i, y - f.vStart;
      PlaceOfPixel(slab, span.first - f.uStart, i, dv, channel);
      assert slab.pixels[slab.Place(du, dv, channel)]
          == image(Along(f.uStart, du, 1), Along(f.vStart, dv, 1), z + channel);
    }
  }

  lemma PlaceOfPixel(slab: Slab, du: nat, i: nat, dv: nat, dz: nat)
    ensures slab.Place(du + i, dv, dz) == dz * slab.strideZ + dv * slab.strideV + du * slab.strideU + i * slab.strideU
  {}

  // The totals of one row of a region, span by span.
  method AccumulateRegionRow(r: PlacedRegion, slab: Slab, f: SlabFootprint, channel: nat, y: nat, u0: nat, u1: nat,
                             deviations: bool, ghost image: Image, ghost z: nat)
    returns (totals: RowTotals)
    requires Valid(r) && r.vStart <= y < r.vStart + r.vSize && BoxInFootprint(f, u0, u1, y, y + 1)
    requires SlabShows(slab, f, image, z) && channel < slab.channelCount
    ensures RowShows(totals, Over(PixelsIn(r, u0, u1, y, y + 1), image, z + channel), deviations)
  {
    var spans := ForEachSpan(r, y, u0, u1);
    totals := NO_ROW;
    NoSpanCovers(r, y, u0, u1, spans);
    NothingShown(image, z + channel, deviations);
    hide *;
    for k := 0 to |spans|
      invariant RowShows(totals, Over(CoveredPixels(r, y, u0, u1, spans[..k]), image, z + channel), deviations)
    {
      totals := AccumulateRowSpan(r, slab, f, channel, y, u0, u1, spans, k, deviations, totals, image, z);
    }
    SpansCoverRow(r, y, u0, u1, spans);
  }

  // One span of it.
  method AccumulateRowSpan(r: PlacedRegion, slab: Slab, f: SlabFootprint, channel: nat, y: nat, u0: nat, u1: nat,
                           spans: seq<Span>, k: nat, deviations: bool, row: RowTotals, ghost image: Image,
                           ghost z: nat)
    returns (totals: RowTotals)
    requires Valid(r) && r.vStart <= y < r.vStart + r.vSize && BoxInFootprint(f, u0, u1, y, y + 1)
    requires SlabShows(slab, f, image, z) && channel < slab.channelCount
    requires SpansOf(r, y, u0, u1, spans) && k < |spans|
    requires RowShows(row, Over(CoveredPixels(r, y, u0, u1, spans[..k]), image, z + channel), deviations)
    ensures RowShows(totals, Over(CoveredPixels(r, y, u0, u1, spans[..k + 1]), image, z + channel), deviations)
  {
    hide RowShows, Over, CoveredPixels, TakenBelow, SlabShows, SpansOf, PixelsIn;
    SpanFits(r, y, u0, u1, spans, k);
    var pixels := PixelsOfSpan(r, slab, f, channel, y, spans[k]);
    SpanShowsImage(r, slab, f, channel, y, spans[k], image, z);
    ghost var before := CoveredPixels(r, y, u0, u1, spans[..k]);
    totals := AccumulateSpan(pixels, deviations, row, image, spans[k].first, y, z + channel,
                             Over(before, image, z + channel));
    OneMoreSpan(r, y, u0, u1, spans, k, pixels);
    OverUnion(before, TakenBelow(pixels, spans[k].first, y, pixels.count), image, z + channel);
  }

  lemma SpanFits(r: PlacedRegion, y: nat, u0: nat, u1: nat, spans: seq<Span>, k: nat)
    requires SpansOf(r, y, u0, u1, spans) && k < |spans|
    ensures u0 <= spans[k].first < spans[k].last <= u1
  {}

  lemma NothingShown(image: Image, channel: nat, deviations: bool)
    ensures RowShows(NO_ROW, Over({}, image, channel), deviations)
  {}

  // ---- One region in one cell ----

  // The totals of one region at one channel with a set of pixels added.
  ghost function Added(contents: seq<seq<Totals>>, r: nat, c: nat, t: Totals): seq<seq<Totals>>
    requires r < |contents| && c < |contents[r]|
  {
    contents[r := contents[r][c := contents[r][c].Plus(t)]]
  }

  lemma AddedTwice(contents: seq<seq<Totals>>, r: nat, c: nat, t: Totals, u: Totals)
    requires r < |contents| && c < |contents[r]|
    ensures Added(Added(contents, r, c, t), r, c, u) == Added(contents, r, c, t.Plus(u))
  {
    hide Totals.Plus;
    PlusLaws(contents[r][c], t, u);
    var once, both := Added(contents, r, c, t), contents[r][c].Plus(t.Plus(u));
    assert once[r][c := both] == contents[r][c := both];
    assert once[r := contents[r][c := both]] == contents[r := contents[r][c := both]];
  }

  lemma AddedNothing(contents: seq<seq<Totals>>, r: nat, c: nat)
    requires r < |contents| && c < |contents[r]|
    ensures Added(contents, r, c, Nothing) == contents
  {
    hide Totals.Plus;
    PlusLaws(contents[r][c], Nothing, Nothing);
    assert contents[r][c := contents[r][c]] == contents[r];
  }

  lemma OneMoreRow(r: PlacedRegion, u0: nat, u1: nat, v0: nat, y: nat, image: Image, channel: nat)
    requires v0 <= y
    ensures Over(PixelsIn(r, u0, u1, v0, y + 1), image, channel)
         == Over(PixelsIn(r, u0, u1, v0, y), image, channel).Plus(Over(PixelsIn(r, u0, u1, y, y + 1), image, channel))
  {
    hide Selected, Over;
    OverUnion(PixelsIn(r, u0, u1, v0, y), PixelsIn(r, u0, u1, y, y + 1), image, channel);
    assert PixelsIn(r, u0, u1, v0, y + 1) == PixelsIn(r, u0, u1, v0, y) + PixelsIn(r, u0, u1, y, y + 1);
  }

  lemma NoRows(r: PlacedRegion, u0: nat, u1: nat, v: nat)
    ensures PixelsIn(r, u0, u1, v, v) == {}
  {}

  // The rows of a region inside a box hold every pixel it has there.
  lemma RowsHoldAll(r: PlacedRegion, u0: nat, u1: nat, v0: nat, v1: nat, rows: (nat, nat))
    requires rows == RowsWithin(r, u0, u1, v0, v1)
    ensures PixelsIn(r, u0, u1, v0, v1) == PixelsIn(r, u0, u1, rows.0, if rows.0 < rows.1 then rows.1 else rows.0)
  {}

  method AccumulateRegion(regions: seq<PlacedRegion>, index: nat, slab: Slab, f: SlabFootprint, channel: nat,
                          u0: nat, u1: nat, v0: nat, v1: nat, deviations: bool, partial: StatisticSlots,
                          ghost image: Image, ghost z: nat)
    requires index < |regions| && Valid(regions[index]) && BoxInFootprint(f, u0, u1, v0, v1)
    requires SlabShows(slab, f, image, z) && channel < slab.channelCount
    requires partial.Valid() && partial.regions == |regions| && partial.channels == slab.channelCount
    requires deviations == partial.layout.Deviations()
    modifies partial`values, partial`contents
    ensures partial.Valid() && index < |old(partial.contents)| && channel < |old(partial.contents)[index]|
    ensures partial.contents == Added(old(partial.contents), index, channel,
                                      Over(PixelsIn(regions[index], u0, u1, v0, v1), image, z + channel))
  {
    hide *;
    var region := regions[index];
    var rows := RowsWithin(region, u0, u1, v0, v1);
    RowsHoldAll(region, u0, u1, v0, v1, rows);
    NoRows(region, u0, u1, rows.0);
    OverNone(image, z + channel);
    ghost var before := partial.contents;
    partial.ContentsShape();
    AddedNothing(before, index, channel);
    var y := rows.0;
    while y < rows.1
      invariant rows.0 <= y && (rows.0 < rows.1 ==> y <= rows.1) && (rows.0 >= rows.1 ==> y == rows.0)
      invariant partial.Valid()
      invariant partial.contents
           == Added(before, index, channel, Over(PixelsIn(region, u0, u1, rows.0, y), image, z + channel))
    {
      RowFits(region, f, u0, u1, v0, v1, y);
      var totals := AccumulateRegionRow(region, slab, f, channel, y, u0, u1, deviations, image, z);
      ghost var row := Over(PixelsIn(region, u0, u1, y, y + 1), image, z + channel);
      partial.ContentsShape();
      partial.Fold(index, channel, totals, deviations, row);
      OneMoreRow(region, u0, u1, rows.0, y, image, z + channel);
      AddedIs(before, index, channel, Over(PixelsIn(region, u0, u1, rows.0, y), image, z + channel), row,
              partial.contents);
      y := y + 1;
    }
  }

  lemma OverNone(image: Image, channel: nat)
    ensures Over({}, image, channel) == Nothing
  {}

  lemma AddedIs(before: seq<seq<Totals>>, r: nat, c: nat, t: Totals, u: Totals, after: seq<seq<Totals>>)
    requires r < |before| && c < |before[r]|
    requires var mid := Added(before, r, c, t);
             && r < |mid| && c < |mid[r]| && after == mid[r := mid[r][c := mid[r][c].Plus(u)]]
    ensures after == Added(before, r, c, t.Plus(u))
  {
    AddedTwice(before, r, c, t, u);
  }

  lemma RowFits(r: PlacedRegion, f: SlabFootprint, u0: nat, u1: nat, v0: nat, v1: nat, y: nat)
    requires BoxInFootprint(f, u0, u1, v0, v1)
    requires var rows := RowsWithin(r, u0, u1, v0, v1); rows.0 <= y < rows.1
    ensures BoxInFootprint(f, u0, u1, y, y + 1) && r.vStart <= y < r.vStart + r.vSize
  {}

  // ---- One unit: one channel of one chunk cell ----

  // The part of a footprint's box in one chunk cell.
  function CellBox(f: OccupiedFootprint, g: G.Grid, cu: nat, cv: nat): O.Box {
    O.Box(B.Max(f.slab.uStart, cu * g.chunkU), B.Max(f.slab.vStart, cv * g.chunkV),
          B.Min(f.slab.uStart + f.slab.uCount, (cu + 1) * g.chunkU),
          B.Min(f.slab.vStart + f.slab.vCount, (cv + 1) * g.chunkV))
  }

  ghost function InCellBox(r: PlacedRegion, box: O.Box): set<At> {
    PixelsIn(r, box.u0, box.u1, box.v0, box.v1)
  }

  predicate InBoxOf(box: O.Box, u: nat, v: nat) {
    box.u0 <= u < box.u1 && box.v0 <= v < box.v1
  }

  lemma CellBoxHolds(f: OccupiedFootprint, g: G.Grid, cu: nat, cv: nat, u: nat, v: nat)
    requires g.chunkU > 0 && g.chunkV > 0
    ensures InBoxOf(CellBox(f, g, cu, cv), u, v) <==> InBox(f, u, v) && u / g.chunkU == cu && v / g.chunkV == cv
  {
    B.DivIs(u, g.chunkU, cu);
    B.DivIs(v, g.chunkV, cv);
  }

  // The totals of the regions in `done` each have their pixels of the box added, at one channel.
  ghost predicate RegionsAdded(before: seq<seq<Totals>>, after: seq<seq<Totals>>, regions: seq<PlacedRegion>,
                               channel: nat, box: O.Box, done: set<nat>, image: Image, z: nat) {
    && |before| == |after| == |regions|
    && (forall r :: 0 <= r < |before| ==> |after[r]| == |before[r]|)
    && forall r: nat, c: nat :: r < |regions| && c < |before[r]| ==>
         after[r][c] == if c == channel && r in done
                        then before[r][c].Plus(Over(InCellBox(regions[r], box), image, z + channel))
                        else before[r][c]
  }

  lemma OneMoreAdded(before: seq<seq<Totals>>, mid: seq<seq<Totals>>, after: seq<seq<Totals>>,
                     regions: seq<PlacedRegion>, channel: nat, box: O.Box, done: set<nat>, image: Image, z: nat, i: nat)
    requires RegionsAdded(before, mid, regions, channel, box, done, image, z) && i < |regions| && i !in done
    requires channel < |before[i]|
    requires after == Added(mid, i, channel, Over(InCellBox(regions[i], box), image, z + channel))
    ensures RegionsAdded(before, after, regions, channel, box, done + {i}, image, z)
  {
    hide Totals.Plus, InCellBox, Over;
  }

  // Every region's totals have its pixels of the box added, at one channel.
  ghost predicate AllAdded(before: seq<seq<Totals>>, after: seq<seq<Totals>>, regions: seq<PlacedRegion>, channel: nat,
                           box: O.Box, image: Image, z: nat) {
    && |before| == |after| == |regions|
    && (forall r :: 0 <= r < |before| ==> |after[r]| == |before[r]|)
    && forall r: nat, c: nat :: r < |regions| && c < |before[r]| ==>
         after[r][c] == if c == channel then before[r][c].Plus(Over(InCellBox(regions[r], box), image, z + channel))
                        else before[r][c]
  }

  // A region that does not occupy a cell has no pixel in it: adding it changes nothing.
  lemma EveryRegionAdded(before: seq<seq<Totals>>, after: seq<seq<Totals>>, regions: seq<PlacedRegion>, channel: nat,
                         box: O.Box, done: set<nat>, image: Image, z: nat)
    requires RegionsAdded(before, after, regions, channel, box, done, image, z)
    requires forall r: nat :: r < |regions| && r !in done ==> InCellBox(regions[r], box) == {}
    ensures AllAdded(before, after, regions, channel, box, image, z)
  {
    forall r: nat, c: nat | r < |regions| && c < |before[r]|
      ensures r !in done ==> before[r][c].Plus(Over(InCellBox(regions[r], box), image, z + channel)) == before[r][c]
    {
      if r !in done { OverNone(image, z + channel); PlusLaws(before[r][c], Nothing, Nothing); }
    }
    hide Totals.Plus, InCellBox, Over;
  }

  // The first k regions of a list.
  ghost function FirstOf(touching: seq<nat>, k: nat): set<nat>
    requires k <= |touching|
  {
    set i | 0 <= i < k :: touching[i]
  }

  lemma OneMoreOfList(touching: seq<nat>, k: nat)
    requires O.Ascending(touching) && k < |touching|
    ensures FirstOf(touching, k + 1) == FirstOf(touching, k) + {touching[k]} && touching[k] !in FirstOf(touching, k)
  {}

  lemma WholeList(touching: seq<nat>, r: nat)
    ensures r in FirstOf(touching, |touching|) <==> r in touching
  {}

  lemma Untouched(f: OccupiedFootprint, o: O.Occupancy, cu: nat, cv: nat, r: nat)
    requires Usable(o) && r < |o.regions| && !G.Occupies(o.regions[r], o.grid, cu, cv)
    ensures InCellBox(o.regions[r], CellBox(f, o.grid, cu, cv)) == {}
  {
    hide CellBox, Selected, Usable, InBox;
    assert o.grid.Valid() by { GridIsValid(o); }
    var box := CellBox(f, o.grid, cu, cv);
    forall u: nat, v: nat | box.u0 <= u < box.u1 && box.v0 <= v < box.v1 ensures !Selected(o.regions[r], u, v) {
      CellBoxHolds(f, o.grid, cu, cv, u, v);
      assert G.InCell(o.regions[r], o.grid, cu, cv, u, v) <==> Selected(o.regions[r], u, v);
    }
  }

  lemma GridIsValid(o: O.Occupancy)
    requires Usable(o)
    ensures o.grid.Valid() && o.grid.chunkU > 0 && o.grid.chunkV > 0 && O.Indexes(o)
    ensures forall r :: 0 <= r < |o.regions| ==> Valid(o.regions[r])
  {}

  // What a task is handed of the walk: the regions and the footprint the slab was read over.
  ghost predicate Reading(o: O.Occupancy, f: OccupiedFootprint, chunksPerRead: nat, slab: Slab, image: Image, z: nat) {
    Usable(o) && WellCut(f, o, chunksPerRead) && SlabShows(slab, f.slab, image, z)
  }

  ghost predicate ForRegions(partial: StatisticSlots, layout: StatisticLayout, regions: nat, channels: nat)
    reads partial
  {
    partial.Valid() && partial.layout == layout && partial.regions == regions && partial.channels == channels
  }

  lemma ForRegionsMeans(partial: StatisticSlots, layout: StatisticLayout, regions: nat, channels: nat)
    requires ForRegions(partial, layout, regions, channels)
    ensures partial.Valid() && partial.layout == layout && partial.regions == regions && partial.channels == channels
    ensures layout.Valid() && |layout.slotOf| == |ORDER|
    ensures |partial.contents| == regions && forall r :: 0 <= r < regions ==> |partial.contents[r]| == channels
  {}

  lemma AgainForRegions(partial: StatisticSlots, layout: StatisticLayout, regions: nat, channels: nat)
    requires partial.Valid() && partial.layout == layout && partial.regions == regions && partial.channels == channels
    ensures ForRegions(partial, layout, regions, channels)
  {}

  method AccumulateUnit(o: O.Occupancy, f: OccupiedFootprint, ghost chunksPerRead: nat, slab: Slab,
                        layout: StatisticLayout,
                        channel: nat, cu: nat, cv: nat, deviations: bool, partial: StatisticSlots,
                        ghost image: Image, ghost z: nat)
    requires Reading(o, f, chunksPerRead, slab, image, z) && channel < slab.channelCount
    requires f.cuBegin <= cu < f.cuEnd && f.cvBegin <= cv < f.cvEnd
    requires ForRegions(partial, layout, |o.regions|, slab.channelCount)
    requires |layout.slotOf| == |ORDER| && deviations == layout.Deviations()
    modifies partial`values, partial`contents
    ensures ForRegions(partial, layout, |o.regions|, slab.channelCount)
    ensures AllAdded(old(partial.contents), partial.contents, o.regions, channel, CellBox(f, o.grid, cu, cv), image, z)
  {
    hide *;
    ghost var before := partial.contents;
    ForRegionsMeans(partial, layout, |o.regions|, slab.channelCount);
    var box := CellBox(f, o.grid, cu, cv);
    UnitFits(o, f, chunksPerRead, slab, image, z, cu, cv);
    NoneAdded(before, o.regions, channel, box, image, z);
    if box.u0 >= box.u1 || box.v0 >= box.v1 {
      NothingInBox(o.regions, box);
      EveryRegionAdded(before, before, o.regions, channel, box, {}, image, z);
      return;
    }
    var touching := O.RegionsTouching(o, cu, cv);
    NoneOfList(touching);
    for k := 0 to |touching|
      invariant ForRegions(partial, layout, |o.regions|, slab.channelCount)
      invariant RegionsAdded(before, partial.contents, o.regions, channel, box, FirstOf(touching, k), image, z)
    {
      ForRegionsMeans(partial, layout, |o.regions|, slab.channelCount);
      ghost var mid := partial.contents;
      var r := touching[k];
      AccumulateRegion(o.regions, r, slab, f.slab, channel, box.u0, box.u1, box.v0, box.v1, deviations, partial, image,
                       z);
      OneMoreOfList(touching, k);
      SameBox(o.regions[r], box);
      OneMoreAdded(before, mid, partial.contents, o.regions, channel, box, FirstOf(touching, k), image, z, r);
      AgainForRegions(partial, layout, |o.regions|, slab.channelCount);
    }
    forall r: nat | r < |o.regions| && r !in FirstOf(touching, |touching|) ensures InCellBox(o.regions[r], box) == {} {
      WholeList(touching, r);
      Untouched(f, o, cu, cv, r);
    }
    EveryRegionAdded(before, partial.contents, o.regions, channel, box, FirstOf(touching, |touching|), image, z);
  }

  lemma SameBox(r: PlacedRegion, box: O.Box)
    ensures InCellBox(r, box) == PixelsIn(r, box.u0, box.u1, box.v0, box.v1)
  {}

  lemma NoneOfList(touching: seq<nat>)
    ensures FirstOf(touching, 0) == {}
  {}

  lemma NothingInBox(regions: seq<PlacedRegion>, box: O.Box)
    requires box.u0 >= box.u1 || box.v0 >= box.v1
    ensures forall r: nat :: r < |regions| ==> InCellBox(regions[r], box) == {}
  {}

  lemma NoneAdded(before: seq<seq<Totals>>, regions: seq<PlacedRegion>, channel: nat, box: O.Box, image: Image, z: nat)
    requires |before| == |regions|
    ensures RegionsAdded(before, before, regions, channel, box, {}, image, z)
  {}

  // What a unit may rely on.
  lemma UnitFits(o: O.Occupancy, f: OccupiedFootprint, chunksPerRead: nat, slab: Slab, image: Image, z: nat, cu: nat,
                 cv: nat)
    requires Reading(o, f, chunksPerRead, slab, image, z) && f.cuBegin <= cu < f.cuEnd && f.cvBegin <= cv < f.cvEnd
    ensures Usable(o) && SlabShows(slab, f.slab, image, z) && o.grid.Valid()
    ensures cu >= o.grid.cu0 && cv >= o.grid.cv0
    ensures var box := CellBox(f, o.grid, cu, cv);
            box.u0 < box.u1 && box.v0 < box.v1 ==> BoxInFootprint(f.slab, box.u0, box.u1, box.v0, box.v1)
    ensures var touching := O.RegionsTouching(o, cu, cv);
            && O.Ascending(touching)
            && (forall k :: 0 <= k < |touching| ==> touching[k] < |o.regions| && Valid(o.regions[touching[k]]))
            && (forall r: nat :: r in touching <==> r < |o.regions| && G.Occupies(o.regions[r], o.grid, cu, cv))
  {
    GridIsValid(o);
    forall r: nat
      ensures r in O.RegionsTouching(o, cu, cv) <==> r < |o.regions| && G.Occupies(o.regions[r], o.grid, cu, cv)
    {
      O.RegionsTouchingAreExact(o, cu, cv, r);
    }
    O.RegionsTouchingAreExact(o, cu, cv, 0);
    hide O.RegionsTouching, G.Occupies, SlabShows, Usable, O.Ascending;
  }

  // ---- One task: a contiguous run of units ----

  function Cells(f: OccupiedFootprint): nat
    requires f.cuBegin < f.cuEnd && f.cvBegin < f.cvEnd
  {
    B.Max(1, (f.cvEnd - f.cvBegin) * (f.cuEnd - f.cuBegin))
  }

  // The number of the unit that takes a pixel of the footprint's box at channel c.
  ghost function UnitOf(f: OccupiedFootprint, g: G.Grid, c: nat, u: nat, v: nat): int
    requires g.chunkU > 0 && g.chunkV > 0 && f.cuBegin < f.cuEnd && f.cvBegin < f.cvEnd
  {
    c * Cells(f) + ((v / g.chunkV - f.cvBegin) * (f.cuEnd - f.cuBegin) + (u / g.chunkU - f.cuBegin))
  }

  // The pixels of a region at one channel that the units [first, last) take.
  ghost function UnitPixels(r: PlacedRegion, f: OccupiedFootprint, g: G.Grid, c: nat, first: nat, last: nat): set<At>
    requires g.chunkU > 0 && g.chunkV > 0 && f.cuBegin < f.cuEnd && f.cvBegin < f.cvEnd
  {
    set p | p in InFootprint(r, f) && first <= UnitOf(f, g, c, p.u, p.v) < last
  }

  ghost function InFootprint(r: PlacedRegion, f: OccupiedFootprint): set<At> {
    PixelsIn(r, f.slab.uStart, f.slab.uStart + f.slab.uCount, f.slab.vStart, f.slab.vStart + f.slab.vCount)
  }

  // A number is a unit's exactly when its quotient is the channel and its remainder the cell's.
  lemma UnitIsCell(c: nat, cells: nat, row: nat, rows: nat, column: nat, columns: nat, unit: nat)
    requires row < rows && column < columns && cells == rows * columns
    ensures c * cells + (row * columns + column) == unit
       <==> unit / cells == c && unit % cells / columns == row && unit % cells % columns == column
  {
    B.MulMono(row + 1, rows, columns);
    assert (row + 1) * columns == row * columns + columns;
    B.DivMod(c, row * columns + column, cells);
    B.DivMod(row, column, columns);
  }

  // The cell of a unit lies in the footprint.
  lemma UnitInFootprint(f: OccupiedFootprint, unit: nat, channels: nat)
    requires f.cuBegin < f.cuEnd && f.cvBegin < f.cvEnd && unit < channels * Cells(f)
    ensures Cells(f) == (f.cvEnd - f.cvBegin) * (f.cuEnd - f.cuBegin)
    ensures unit / Cells(f) < channels
    ensures unit % Cells(f) / (f.cuEnd - f.cuBegin) < f.cvEnd - f.cvBegin
  {
    B.MulMono(1, f.cvEnd - f.cvBegin, f.cuEnd - f.cuBegin);
    B.AtOrPast(channels, unit, Cells(f));
    B.AtOrPast(f.cvEnd - f.cvBegin, unit % Cells(f), f.cuEnd - f.cuBegin);
  }

  // The channel and the cell that a unit is of.
  ghost predicate UnitIs(f: OccupiedFootprint, unit: nat, channel: nat, cu: nat, cv: nat) {
    && f.cuBegin < f.cuEnd && f.cvBegin <= cv < f.cvEnd && Cells(f) > 0
    && Cells(f) == (f.cvEnd - f.cvBegin) * (f.cuEnd - f.cuBegin)
    && channel == unit / Cells(f)
    && cv == f.cvBegin + unit % Cells(f) / (f.cuEnd - f.cuBegin)
    && cu == f.cuBegin + unit % Cells(f) % (f.cuEnd - f.cuBegin)
  }

  lemma ItsCell(f: OccupiedFootprint, unit: nat, channels: nat)
    requires f.cuBegin < f.cuEnd && f.cvBegin < f.cvEnd && Cells(f) > 0 && unit < channels * Cells(f)
    ensures UnitIs(f, unit, unit / Cells(f), f.cuBegin + unit % Cells(f) % (f.cuEnd - f.cuBegin),
                   f.cvBegin + unit % Cells(f) / (f.cuEnd - f.cuBegin))
  {
    UnitInFootprint(f, unit, channels);
    hide Cells;
  }

  // One unit more takes the pixels of one cell at one channel.
  lemma OneMoreUnit(r: PlacedRegion, f: OccupiedFootprint, o: O.Occupancy, chunksPerRead: nat, c: nat, first: nat,
                    unit: nat, channel: nat, cu: nat, cv: nat)
    requires CanCut(o, f) && WellCut(f, o, chunksPerRead) && first <= unit && O.Within(r, o.box)
    requires UnitIs(f, unit, channel, cu, cv)
    ensures var more := if c == channel then InCellBox(r, CellBox(f, o.grid, cu, cv)) else {};
      && UnitPixels(r, f, o.grid, c, first, unit + 1) == UnitPixels(r, f, o.grid, c, first, unit) + more
      && UnitPixels(r, f, o.grid, c, first, unit) !! more
  {
    var g := o.grid;
    CanCutMeans(o, f);
    forall u: nat, v: nat
      ensures At(u, v) in InFootprint(r, f) && UnitOf(f, g, c, u, v) == unit
         <==> c == channel && At(u, v) in InCellBox(r, CellBox(f, g, cu, cv))
    {
      PixelUnit(r, f, o, chunksPerRead, c, unit, channel, cu, cv, u, v);
    }
    hide UnitOf, InFootprint, InCellBox, CellBox, WellCut, Cells, UnitIs;
    var more := if c == channel then InCellBox(r, CellBox(f, g, cu, cv)) else {};
    forall p: At ensures p in more <==> p in InFootprint(r, f) && UnitOf(f, g, c, p.u, p.v) == unit {
      assert p == At(p.u, p.v);
    }
  }

  lemma PixelUnit(r: PlacedRegion, f: OccupiedFootprint, o: O.Occupancy, chunksPerRead: nat, c: nat, unit: nat,
                  channel: nat, cu: nat, cv: nat, u: nat, v: nat)
    requires CanCut(o, f) && WellCut(f, o, chunksPerRead) && O.Within(r, o.box)
    requires UnitIs(f, unit, channel, cu, cv)
    ensures At(u, v) in InFootprint(r, f) && UnitOf(f, o.grid, c, u, v) == unit
       <==> c == channel && At(u, v) in InCellBox(r, CellBox(f, o.grid, cu, cv))
  {
    hide Selected, UnitOf, Cells;
    CellBoxHolds(f, o.grid, cu, cv, u, v);
    InFootprintMeans(r, f, u, v);
    InCellBoxMeans(r, CellBox(f, o.grid, cu, cv), u, v);
    if Selected(r, u, v) && InBox(f, u, v) {
      SelectedInBox(r, o.box, u, v);
      InBoxIsHeld(f, o, chunksPerRead, u, v);
      NumberOfPixel(f, o.grid, c, u, v, unit);
    }
    hide WellCut, InBox, CellBox;
  }

  lemma InFootprintMeans(r: PlacedRegion, f: OccupiedFootprint, u: nat, v: nat)
    ensures At(u, v) in InFootprint(r, f) <==> InBox(f, u, v) && Selected(r, u, v)
  {
    hide Selected;
  }

  lemma InCellBoxMeans(r: PlacedRegion, box: O.Box, u: nat, v: nat)
    ensures At(u, v) in InCellBox(r, box) <==> InBoxOf(box, u, v) && Selected(r, u, v)
  {
    hide Selected;
  }

  lemma SelectedInBox(r: PlacedRegion, box: O.Box, u: nat, v: nat)
    requires O.Within(r, box) && Selected(r, u, v)
    ensures box.u0 <= u < box.u1 && box.v0 <= v < box.v1
  {}

  lemma NumberOfPixel(f: OccupiedFootprint, g: G.Grid, c: nat, u: nat, v: nat, unit: nat)
    requires g.chunkU > 0 && g.chunkV > 0 && Holds(f, u / g.chunkU, v / g.chunkV)
    requires Cells(f) == (f.cvEnd - f.cvBegin) * (f.cuEnd - f.cuBegin)
    ensures UnitOf(f, g, c, u, v) == unit
       <==> c == unit / Cells(f) && v / g.chunkV == f.cvBegin + unit % Cells(f) / (f.cuEnd - f.cuBegin)
            && u / g.chunkU == f.cuBegin + unit % Cells(f) % (f.cuEnd - f.cuBegin)
  {
    UnitIsCell(c, Cells(f), v / g.chunkV - f.cvBegin, f.cvEnd - f.cvBegin, u / g.chunkU - f.cuBegin,
               f.cuEnd - f.cuBegin, unit);
  }

  // A partial holds, of every region at every channel of the slab, the pixels of the units taken.
  ghost predicate HoldsUnits(contents: seq<seq<Totals>>, regions: seq<PlacedRegion>, f: OccupiedFootprint, g: G.Grid,
                             channels: nat, first: nat, last: nat, image: Image, z: nat)
    requires g.chunkU > 0 && g.chunkV > 0 && f.cuBegin < f.cuEnd && f.cvBegin < f.cvEnd
  {
    && |contents| == |regions| && (forall r :: 0 <= r < |contents| ==> |contents[r]| == channels)
    && forall r: nat, c: nat :: r < |regions| && c < channels ==>
         contents[r][c] == Over(UnitPixels(regions[r], f, g, c, first, last), image, z + c)
  }

  lemma NoUnits(regions: seq<PlacedRegion>, f: OccupiedFootprint, g: G.Grid, channels: nat, first: nat, image: Image,
                z: nat, contents: seq<seq<Totals>>)
    requires g.chunkU > 0 && g.chunkV > 0 && f.cuBegin < f.cuEnd && f.cvBegin < f.cvEnd
    requires contents == seq(|regions|, r => seq(channels, c => Nothing))
    ensures HoldsUnits(contents, regions, f, g, channels, first, first, image, z)
  {
    forall r: nat, c: nat | r < |regions| && c < channels
      ensures Over(UnitPixels(regions[r], f, g, c, first, first), image, z + c) == Nothing
    {
      assert UnitPixels(regions[r], f, g, c, first, first) == {};
      OverNone(image, z + c);
    }
    hide Over, UnitPixels;
  }

  lemma UnitAdded(before: seq<seq<Totals>>, after: seq<seq<Totals>>, o: O.Occupancy, f: OccupiedFootprint,
                  chunksPerRead: nat, channels: nat, first: nat, unit: nat, channel: nat, cu: nat, cv: nat,
                  image: Image, z: nat)
    requires CanCut(o, f) && Usable(o) && WellCut(f, o, chunksPerRead) && first <= unit && channel < channels
    requires HoldsUnits(before, o.regions, f, o.grid, channels, first, unit, image, z)
    requires AllAdded(before, after, o.regions, channel, CellBox(f, o.grid, cu, cv), image, z)
    requires UnitIs(f, unit, channel, cu, cv)
    ensures HoldsUnits(after, o.regions, f, o.grid, channels, first, unit + 1, image, z)
  {
    hide *;
    CanCutMeans(o, f);
    RegionsWithin(o);
    var box := CellBox(f, o.grid, cu, cv);
    UnitShape(before, after, o, f, channels, first, unit, channel, box, image, z);
    forall r: nat, c: nat | r < |o.regions| && c < channels
      ensures after[r][c] == Over(UnitPixels(o.regions[r], f, o.grid, c, first, unit + 1), image, z + c)
    {
      UnitTotals(before, after, o, f, channels, first, unit, channel, box, image, z, r, c);
      UnitAddedAt(o.regions[r], o, f, chunksPerRead, c, first, unit, channel, cu, cv, image, z, before[r][c]);
    }
    UnitsHeld(after, o.regions, f, o.grid, channels, first, unit + 1, image, z);
  }

  lemma UnitShape(before: seq<seq<Totals>>, after: seq<seq<Totals>>, o: O.Occupancy, f: OccupiedFootprint,
                  channels: nat, first: nat, unit: nat, channel: nat, box: O.Box, image: Image, z: nat)
    requires o.grid.chunkU > 0 && o.grid.chunkV > 0 && f.cuBegin < f.cuEnd && f.cvBegin < f.cvEnd
    requires HoldsUnits(before, o.regions, f, o.grid, channels, first, unit, image, z)
    requires AllAdded(before, after, o.regions, channel, box, image, z)
    ensures |before| == |after| == |o.regions|
    ensures forall r :: 0 <= r < |after| ==> |after[r]| == |before[r]| == channels
  {
    hide Over, UnitPixels, Totals.Plus, InCellBox;
  }

  lemma UnitTotals(before: seq<seq<Totals>>, after: seq<seq<Totals>>, o: O.Occupancy, f: OccupiedFootprint,
                   channels: nat, first: nat, unit: nat, channel: nat, box: O.Box, image: Image, z: nat, r: nat, c: nat)
    requires o.grid.chunkU > 0 && o.grid.chunkV > 0 && f.cuBegin < f.cuEnd && f.cvBegin < f.cvEnd
    requires |before| == |after| == |o.regions| && r < |o.regions| && |after[r]| == |before[r]| == channels
    requires c < channels
    requires HoldsUnits(before, o.regions, f, o.grid, channels, first, unit, image, z)
    requires AllAdded(before, after, o.regions, channel, box, image, z)
    ensures before[r][c] == Over(UnitPixels(o.regions[r], f, o.grid, c, first, unit), image, z + c)
    ensures after[r][c]
         == if c == channel then before[r][c].Plus(Over(InCellBox(o.regions[r], box), image, z + c))
             else before[r][c]
  {
    hide Over, UnitPixels, Totals.Plus, InCellBox;
  }

  lemma UnitsHeld(contents: seq<seq<Totals>>, regions: seq<PlacedRegion>, f: OccupiedFootprint, g: G.Grid,
                  channels: nat, first: nat, last: nat, image: Image, z: nat)
    requires g.chunkU > 0 && g.chunkV > 0 && f.cuBegin < f.cuEnd && f.cvBegin < f.cvEnd
    requires |contents| == |regions| && forall r :: 0 <= r < |contents| ==> |contents[r]| == channels
    requires forall r: nat, c: nat :: r < |regions| && c < channels ==>
               contents[r][c] == Over(UnitPixels(regions[r], f, g, c, first, last), image, z + c)
    ensures HoldsUnits(contents, regions, f, g, channels, first, last, image, z)
  {
    hide Over, UnitPixels;
  }

  lemma RegionsWithin(o: O.Occupancy)
    requires Usable(o)
    ensures forall r :: 0 <= r < |o.regions| ==> O.Within(o.regions[r], o.box)
  {}

  lemma UnitAddedAt(region: PlacedRegion, o: O.Occupancy, f: OccupiedFootprint, chunksPerRead: nat, c: nat,
                    first: nat, unit: nat, channel: nat, cu: nat, cv: nat, image: Image, z: nat, t: Totals)
    requires CanCut(o, f) && WellCut(f, o, chunksPerRead) && first <= unit && O.Within(region, o.box)
    requires UnitIs(f, unit, channel, cu, cv)
    requires t == Over(UnitPixels(region, f, o.grid, c, first, unit), image, z + c)
    ensures Over(UnitPixels(region, f, o.grid, c, first, unit + 1), image, z + c)
         == if c == channel then t.Plus(Over(InCellBox(region, CellBox(f, o.grid, cu, cv)), image, z + c))
             else t
  {
    OneMoreUnit(region, f, o, chunksPerRead, c, first, unit, channel, cu, cv);
    hide Over, UnitPixels, WellCut, Totals.Plus, CellBox, InCellBox, UnitIs;
    var more := if c == channel then InCellBox(region, CellBox(f, o.grid, cu, cv)) else {};
    var had := UnitPixels(region, f, o.grid, c, first, unit);
    OverUnion(had, more, image, z + c);
    if c != channel { assert had + more == had; }
  }

  // The body of one task.
  method RunTask(o: O.Occupancy, f: OccupiedFootprint, ghost chunksPerRead: nat, slab: Slab, layout: StatisticLayout,
                 first: nat, last: nat, deviations: bool, partial: StatisticSlots, ghost image: Image, ghost z: nat)
    requires Reading(o, f, chunksPerRead, slab, image, z) && CanCut(o, f)
    requires first <= last <= slab.channelCount * Cells(f)
    requires ForRegions(partial, layout, |o.regions|, slab.channelCount)
    requires |layout.slotOf| == |ORDER| && deviations == layout.Deviations()
    requires HoldsUnits(partial.contents, o.regions, f, o.grid, slab.channelCount, first, first, image, z)
    modifies partial`values, partial`contents
    ensures ForRegions(partial, layout, |o.regions|, slab.channelCount)
    ensures HoldsUnits(partial.contents, o.regions, f, o.grid, slab.channelCount, first, last, image, z)
  {
    hide *;
    CanCutMeans(o, f);
    var cuSpan := f.cuEnd - f.cuBegin;
    var cells := Cells(f);
    for unit := first to last
      invariant ForRegions(partial, layout, |o.regions|, slab.channelCount)
      invariant HoldsUnits(partial.contents, o.regions, f, o.grid, slab.channelCount, first, unit, image, z)
    {
      UnitInFootprint(f, unit, slab.channelCount);
      ReadingMeans(o, f, chunksPerRead, slab, image, z);
      var channel, cell := unit / cells, unit % cells;
      var cv := f.cvBegin + cell / cuSpan;
      var cu := f.cuBegin + cell % cuSpan;
      ItsCell(f, unit, slab.channelCount);
      ghost var before := partial.contents;
      AccumulateUnit(o, f, chunksPerRead, slab, layout, channel, cu, cv, deviations, partial, image, z);
      UnitAdded(before, partial.contents, o, f, chunksPerRead, slab.channelCount, first, unit, channel, cu, cv, image,
                z);
    }
  }

  ghost predicate CanCut(o: O.Occupancy, f: OccupiedFootprint) {
    o.grid.Valid() && f.cuBegin < f.cuEnd && f.cvBegin < f.cvEnd
  }

  lemma CanCutMeans(o: O.Occupancy, f: OccupiedFootprint)
    requires CanCut(o, f)
    ensures o.grid.Valid() && o.grid.chunkU > 0 && o.grid.chunkV > 0
    ensures f.cuBegin < f.cuEnd && f.cvBegin < f.cvEnd && Cells(f) > 0
  {}

  lemma ReadingMeans(o: O.Occupancy, f: OccupiedFootprint, chunksPerRead: nat, slab: Slab, image: Image, z: nat)
    requires Reading(o, f, chunksPerRead, slab, image, z)
    ensures Usable(o) && WellCut(f, o, chunksPerRead) && SlabShows(slab, f.slab, image, z) && CanCut(o, f)
  {}
}
