// The whole of a spectral reduction: ReduceSpectral, src/reduce/spectral_reduce.cc. The regions are
// placed, indexed and cut into footprints; the pass calls for each read and each hand-over; and what
// the sink is handed is what the caller's regions select, counted once.

module SpectralReduce {
  import opened Wrappers
  import opened Values
  import opened Statistics
  import opened Slots
  import opened Regions
  import opened Footprints
  import opened SlabReduction
  import opened SlabTasks
  import opened SlabReads
  import opened Passes
  import opened WalkAxes
  import opened TaskSplits
  import O = Occupancies
  import P = PixelSelections
  import B = ChunkBlocks
  import CellScan

  // ---- What has been read of a region ----

  // The pixels of a region the walk has read at one channel.
  ghost function PixelsRead(w: Walked, r: PlacedRegion, fs: seq<OccupiedFootprint>, channel: nat): set<At> {
    set f, p | f in FootprintsRead(w, |fs|, channel) && p in InFootprint(r, fs[f]) :: p
  }

  ghost function AllPixels(r: PlacedRegion): set<At> {
    PixelsIn(r, r.uStart, r.uStart + r.uSize, r.vStart, r.vStart + r.vSize)
  }

  // The accumulator holds, of every region at every channel of the block, what has been read of it.
  ghost predicate HoldsRead(contents: seq<seq<Totals>>, w: Walked, regions: seq<PlacedRegion>,
                            fs: seq<OccupiedFootprint>, image: Image) {
    && |contents| == |regions| && (forall r :: 0 <= r < |contents| ==> |contents[r]| == w.length)
    && forall r: nat, c: nat :: r < |regions| && c < w.length ==>
         contents[r][c] == Over(PixelsRead(w, regions[r], fs, w.begin + c), image, w.begin + c)
  }

  // What a walk is over: footprints that partition the chunks the regions occupy.
  ghost predicate Cut(o: O.Occupancy, fs: seq<OccupiedFootprint>, chunksPerRead: nat) {
    Usable(o) && AllWellCut(fs, o, chunksPerRead) && Partitions(fs, o)
  }

  lemma NothingReadYet(w: Walked, regions: seq<PlacedRegion>, fs: seq<OccupiedFootprint>, image: Image,
                       contents: seq<seq<Totals>>)
    requires w.visited == {} && contents == seq(|regions|, r => seq(w.length, c => Nothing))
    ensures HoldsRead(contents, w, regions, fs, image)
  {
    hide PixelsRead, Over;
    forall r: nat, channel: nat | r < |regions|
      ensures Over(PixelsRead(w, regions[r], fs, channel), image, channel) == Nothing
    {
      NoneRead(w, regions[r], fs, channel);
      OverNone(image, channel);
    }
  }

  lemma NoneRead(w: Walked, r: PlacedRegion, fs: seq<OccupiedFootprint>, channel: nat)
    requires w.visited == {}
    ensures PixelsRead(w, r, fs, channel) == {}
  {}

  // Reading one footprint more adds its pixels, none of which was read before.
  lemma OneMoreRead(w: Walked, after: Walked, o: O.Occupancy, r: PlacedRegion, fs: seq<OccupiedFootprint>,
                    chunksPerRead: nat, f: nat, begin: nat, end: nat, channel: nat)
    requires Cut(o, fs, chunksPerRead) && f < |fs| && after.visited == w.visited + Channels(f, begin, end)
    requires begin <= channel < end ==> (f, channel) !in w.visited
    ensures var more := if begin <= channel < end then InFootprint(r, fs[f]) else {};
      && PixelsRead(after, r, fs, channel) == PixelsRead(w, r, fs, channel) + more
      && PixelsRead(w, r, fs, channel) !! more
  {
    hide InFootprint, Cut;
    forall g: nat
      ensures g in FootprintsRead(after, |fs|, channel)
         <==> g in FootprintsRead(w, |fs|, channel) || (g == f && begin <= channel < end)
    {
      ReadIs(w, |fs|, channel, g);
      ReadIs(after, |fs|, channel, g);
      if begin <= channel < end { assert (f, channel) in Channels(f, begin, end); }
    }
    if begin <= channel < end {
      forall g: nat | g in FootprintsRead(w, |fs|, channel) ensures InFootprint(r, fs[g]) !! InFootprint(r, fs[f]) {
        ReadIs(w, |fs|, channel, g);
        FootprintsApart(o, r, fs, chunksPerRead, g, f);
      }
    }
    hide FootprintsRead;
  }

  lemma FootprintsApart(o: O.Occupancy, r: PlacedRegion, fs: seq<OccupiedFootprint>, chunksPerRead: nat, g: nat, f: nat)
    requires Cut(o, fs, chunksPerRead) && g < |fs| && f < |fs| && g != f
    ensures InFootprint(r, fs[g]) !! InFootprint(r, fs[f])
  {
    hide InFootprint, InBox, Partitions, AllWellCut, Usable;
    forall p | p in InFootprint(r, fs[g]) && p in InFootprint(r, fs[f]) ensures false {
      assert p == At(p.u, p.v);
      InFootprintMeans(r, fs[g], p.u, p.v);
      InFootprintMeans(r, fs[f], p.u, p.v);
      BoxesAreDisjoint(fs, o, chunksPerRead, B.Min(g, f), B.Max(g, f), p.u, p.v);
    }
  }

  lemma SlabRead(before: seq<seq<Totals>>, after: seq<seq<Totals>>, w: Walked, w': Walked, o: O.Occupancy,
                 fs: seq<OccupiedFootprint>, chunksPerRead: nat, f: nat, begin: nat, end: nat, image: Image)
    requires Cut(o, fs, chunksPerRead) && HoldsRead(before, w, o.regions, fs, image) && f < |fs|
    requires w.begin <= begin < end <= w.begin + w.length && forall c :: begin <= c < end ==> (f, c) !in w.visited
    requires SlabAdded(before, after, o.regions, fs[f], begin - w.begin, end - begin, image, begin)
    requires w'.visited == w.visited + Channels(f, begin, end) && w'.begin == w.begin && w'.length == w.length
    ensures HoldsRead(after, w', o.regions, fs, image)
  {
    hide Cut, InFootprint, PixelsRead, Over, Totals.Plus, Channels;
    forall r: nat, c: nat | r < |o.regions| && c < w.length
      ensures after[r][c] == Over(PixelsRead(w', o.regions[r], fs, w.begin + c), image, w.begin + c)
    {
      ChannelRead(w, w', o, o.regions[r], fs, chunksPerRead, f, begin, end, w.begin + c, image, before[r][c]);
      assert begin + (c - (begin - w.begin)) == w.begin + c;
    }
  }

  lemma ChannelRead(w: Walked, w': Walked, o: O.Occupancy, r: PlacedRegion, fs: seq<OccupiedFootprint>,
                    chunksPerRead: nat, f: nat, begin: nat, end: nat, channel: nat, image: Image, t: Totals)
    requires Cut(o, fs, chunksPerRead) && f < |fs| && w'.visited == w.visited + Channels(f, begin, end)
    requires begin <= channel < end ==> (f, channel) !in w.visited
    requires t == Over(PixelsRead(w, r, fs, channel), image, channel)
    ensures Over(PixelsRead(w', r, fs, channel), image, channel)
         == if begin <= channel < end then t.Plus(Over(InFootprint(r, fs[f]), image, channel)) else t
  {
    hide Cut, InFootprint, PixelsRead, Over, Totals.Plus, Channels;
    OneMoreRead(w, w', o, r, fs, chunksPerRead, f, begin, end, channel);
    var had := PixelsRead(w, r, fs, channel);
    if begin <= channel < end {
      OverUnion(had, InFootprint(r, fs[f]), image, channel);
    } else {
      assert had + {} == had;
    }
  }

  // A block whose every footprint is read at every channel has every pixel of every region.
  lemma AllRead(w: Walked, o: O.Occupancy, r: nat, fs: seq<OccupiedFootprint>, chunksPerRead: nat, channel: nat)
    requires Cut(o, fs, chunksPerRead) && AllVisited(w, |fs|) && w.begin <= channel < w.begin + w.length
    requires r < |o.regions|
    ensures PixelsRead(w, o.regions[r], fs, channel) == AllPixels(o.regions[r])
  {
    var region := o.regions[r];
    hide Usable, AllWellCut, Partitions, InBox, InFootprint, AllPixels, AllVisited;
    forall p: At ensures p in PixelsRead(w, region, fs, channel) <==> p in AllPixels(region) {
      assert p == At(p.u, p.v);
      AllPixelsMeans(region, p.u, p.v);
      forall f: nat ensures f in FootprintsRead(w, |fs|, channel) <==> f < |fs| {
        ReadIs(w, |fs|, channel, f);
        VisitedMeans(w, |fs|, f, channel);
      }
      forall f: nat | f < |fs|
        ensures p in InFootprint(region, fs[f]) <==> InBox(fs[f], p.u, p.v) && Selected(region, p.u, p.v) {
        InFootprintMeans(region, fs[f], p.u, p.v);
      }
      if Selected(region, p.u, p.v) {
        var f := EverySelectedPixelIsRead(fs, o, chunksPerRead, r, p.u, p.v);
        assert f in FootprintsRead(w, |fs|, channel) && p in InFootprint(region, fs[f]);
      }
      hide Selected, FootprintsRead;
    }
  }

  lemma AllPixelsMeans(r: PlacedRegion, u: nat, v: nat)
    ensures At(u, v) in AllPixels(r) <==> Selected(r, u, v)
  {}

  // ---- In the caller's own axes ----

  // The pixels a caller picked.
  ghost function Picked(given: RegionMask): set<At> {
    set x: nat, y: nat |
      given.xStart <= x < given.xStart + given.width && given.yStart <= y < given.yStart + given.height
          && Picks(given, x, y)
      :: At(x, y)
  }

  lemma PlacedIsPicked(r: PlacedRegion, given: RegionMask, swapSpatial: bool)
    requires r == Plain(given, swapSpatial).(runs := r.runs)
    ensures Picked(given) == if swapSpatial then SwapAll(AllPixels(r)) else AllPixels(r)
  {
    hide Selected, AllPixels;
    forall x: nat, y: nat
      ensures At(x, y) in Picked(given) <==> (if swapSpatial then At(y, x) else At(x, y)) in AllPixels(r)
    {
      PlacedSelects(r, given, swapSpatial, if swapSpatial then y else x, if swapSpatial then x else y);
      AllPixelsMeans(r, if swapSpatial then y else x, if swapSpatial then x else y);
    }
    hide Picks;
    forall p: At ensures p in Picked(given) <==> p in if swapSpatial then SwapAll(AllPixels(r)) else AllPixels(r) {
      assert p == At(p.u, p.v);
      if swapSpatial && p in Picked(given) { assert Swapped(At(p.v, p.u)) == p; }
    }
  }

  // The totals of what was picked, whichever way the walk runs.
  lemma OverPicked(r: PlacedRegion, given: RegionMask, swapSpatial: bool, planes: Planes, stored: StoredImage,
                   channel: nat)
    requires planes.Valid() && r == Plain(given, swapSpatial).(runs := r.runs)
    ensures Over(AllPixels(r), ImageOf(WalkPlanes(planes, swapSpatial), stored), channel)
         == Over(Picked(given), ImageOf(planes, stored), channel)
  {
    PlacedIsPicked(r, given, swapSpatial);
    if swapSpatial {
      ImagesTransposed(planes, stored);
      OverSwapped(AllPixels(r), ImageOf(WalkPlanes(planes, true), stored), ImageOf(planes, stored), channel);
    }
  }

  // ---- Carrying the calls out ----

  // What one hand-over tells the sink: of every region, channel and statistic of the block, what the
  // pixels read so far add up to.
  ghost predicate Tells(block: SpectralBlock, layout: StatisticLayout, w: Walked, regions: seq<PlacedRegion>,
                        fs: seq<OccupiedFootprint>, image: Image) {
    && |layout.slotOf| == |ORDER|
    && block.firstChannel == w.begin && block.channelCount == w.length && block.regionCount == |regions|
    && forall r: nat, c: nat, s: Statistic :: r < |regions| && c < w.length ==>
         block.Series(r, s, c)
         == if layout.Has(s)
            then (true, Report(s, Over(PixelsRead(w, regions[r], fs, w.begin + c), image, w.begin + c)))
            else (false, Finite(0.0))
  }

  lemma ReportsWhatWasRead(block: SpectralBlock, layout: StatisticLayout, contents: seq<seq<Totals>>, w: Walked,
                           regions: seq<PlacedRegion>, fs: seq<OccupiedFootprint>, image: Image)
    requires Reports(block, layout, contents) && HoldsRead(contents, w, regions, fs, image)
    requires block.firstChannel == w.begin && block.channelCount == w.length && block.regionCount == |regions|
    ensures Tells(block, layout, w, regions, fs, image)
  {
    assert |layout.slotOf| == |ORDER|;
    hide PixelsRead, Over, SpectralBlock.Series, StatisticLayout.Valid, StatisticLayout.Has, Report;
  }

  // The channels of each block handed over.
  ghost function Stretches(blocks: seq<SpectralBlock>): (stretches: seq<Stretch>)
    ensures |stretches| == |blocks|
  {
    seq(|blocks|, i requires 0 <= i < |blocks| =>
      Stretch(blocks[i].firstChannel, blocks[i].channelCount, blocks[i].complete))
  }

  lemma OneMoreBlock(blocks: seq<SpectralBlock>, block: SpectralBlock)
    requires InTurn(Stretches(blocks)) && block.firstChannel == Reached(Stretches(blocks))
    ensures InTurn(Stretches(blocks + [block]))
    ensures Reached(Stretches(blocks + [block]))
         == if block.complete then block.firstChannel + block.channelCount else Reached(Stretches(blocks))
  {
    var stretch := Stretch(block.firstChannel, block.channelCount, block.complete);
    assert Stretches(blocks + [block]) == Stretches(blocks) + [stretch];
    OneMoreStretch(Stretches(blocks), stretch);
  }

  // The accumulator while a block is being filled.
  ghost predicate Filling(accumulator: StatisticSlots, w: Walked, regions: seq<PlacedRegion>,
                          fs: seq<OccupiedFootprint>, layout: StatisticLayout, image: Image)
    reads accumulator
  {
    !w.finished ==>
      ForRegions(accumulator, layout, |regions|, w.length) && HoldsRead(accumulator.contents, w, regions, fs, image)
  }

  // Everything a reduction has fixed before it reads. `chunksPerRead` is the plan's.
  datatype Reduction = Reduction(o: O.Occupancy, fs: seq<OccupiedFootprint>, plan: PassPlan, chunksPerRead: nat,
                                 layout: StatisticLayout, planes: Planes, source: PixelSource, workers: nat,
                                 partialBudget: nat, leastPixels: nat)
  {
    ghost predicate Valid(stored: StoredImage) {
      && plan.Valid() && Cut(o, fs, chunksPerRead) && layout.Valid() && planes.Valid()
      && ServesImage(source, stored) && workers >= 1
    }
  }

  function PartialBytes(layout: StatisticLayout, regions: nat, length: nat): nat
    requires |layout.slotOf| == |ORDER|
  {
    B.Max(1, regions * layout.Stored() * 8 * length)
  }

  method CarryVisit(job: Reduction, visit: Call, accumulator: StatisticSlots, partials: seq<StatisticSlots>,
                    ghost w: Walked, ghost stored: StoredImage)
    returns (read: bool, more: seq<StatisticSlots>)
    requires job.Valid(stored) && visit.Visit? && Allowed(w, visit, job.plan, SlabsOf(job.fs))
    requires Apart(partials, accumulator)
    requires Filling(accumulator, w, job.o.regions, job.fs, job.layout, ImageOf(job.planes, stored))
    modifies accumulator`values, accumulator`contents, set i | 0 <= i < |partials| :: partials[i]
    ensures Apart(more, accumulator) && |more| >= |partials| && more[..|partials|] == partials
    ensures forall i :: |partials| <= i < |more| ==> fresh(more[i])
    ensures read ==> Filling(accumulator, After(w, visit, job.plan, SlabsOf(job.fs)), job.o.regions, job.fs, job.layout,
                             ImageOf(job.planes, stored))
  {
    hide *;
    ghost var image := ImageOf(job.planes, stored);
    ReductionMeans(job, stored);
    VisitMeans(w, visit, job.plan, job.fs);
    FillingMeans(accumulator, w, job.o.regions, job.fs, job.layout, image);
    ForRegionsMeans(accumulator, job.layout, |job.o.regions|, w.length);
    var f := job.fs[visit.footprint];
    var slab := ReadSlab(job.source, job.planes, f.slab, visit.begin, visit.end - visit.begin, visit.first, stored);
    if slab.None? {
      return false, partials;
    }
    var split := SplitOf(job.workers, job.partialBudget,
                         PartialBytes(job.layout, |job.o.regions|, visit.end - visit.begin), job.leastPixels);
    ghost var before := accumulator.contents;
    ApartMeans(partials, accumulator);
    MayReduce(job, visit, slab.value, image);
    more := AccumulateSlab(job.o, f, job.chunksPerRead, slab.value, job.layout, split, accumulator, partials,
                           image, visit.begin);
    ghost var w' := After(w, visit, job.plan, SlabsOf(job.fs));
    SlabRead(before, accumulator.contents, w, w', job.o, job.fs, job.chunksPerRead, visit.footprint, visit.begin,
             visit.end, image);
    AgainForRegions(accumulator, job.layout, |job.o.regions|, w.length);
    StillFilling(accumulator, w', job.o.regions, job.fs, job.layout, image);
    read := true;
  }

  lemma ReductionMeans(job: Reduction, stored: StoredImage)
    requires job.Valid(stored)
    ensures job.plan.Valid() && Cut(job.o, job.fs, job.chunksPerRead) && job.layout.Valid() && job.planes.Valid()
    ensures ServesImage(job.source, stored) && job.workers >= 1 && |job.layout.slotOf| == |ORDER|
  {}

  lemma VisitMeans(w: Walked, visit: Call, plan: PassPlan, fs: seq<OccupiedFootprint>)
    requires visit.Visit? && Allowed(w, visit, plan, SlabsOf(fs))
    ensures !w.finished && visit.footprint < |fs| && visit.first == visit.begin - w.begin
    ensures w.begin <= visit.begin < visit.end <= w.begin + w.length
    ensures forall c :: visit.begin <= c < visit.end ==> (visit.footprint, c) !in w.visited
    ensures var w' := After(w, visit, plan, SlabsOf(fs));
      && w'.visited == w.visited + Channels(visit.footprint, visit.begin, visit.end)
      && w'.begin == w.begin && w'.length == w.length && !w'.finished
  {
    hide PassPlan.Aligned, PassPlan.ChunksTouched;
  }

  lemma FillingMeans(accumulator: StatisticSlots, w: Walked, regions: seq<PlacedRegion>, fs: seq<OccupiedFootprint>,
                     layout: StatisticLayout, image: Image)
    requires Filling(accumulator, w, regions, fs, layout, image) && !w.finished
    ensures ForRegions(accumulator, layout, |regions|, w.length)
    ensures HoldsRead(accumulator.contents, w, regions, fs, image)
  {}

  lemma StillFilling(accumulator: StatisticSlots, w: Walked, regions: seq<PlacedRegion>, fs: seq<OccupiedFootprint>,
                     layout: StatisticLayout, image: Image)
    requires ForRegions(accumulator, layout, |regions|, w.length)
    requires HoldsRead(accumulator.contents, w, regions, fs, image)
    ensures Filling(accumulator, w, regions, fs, layout, image)
  {}

  lemma MayReduce(job: Reduction, visit: Call, slab: Slab, image: Image)
    requires Cut(job.o, job.fs, job.chunksPerRead) && visit.Visit? && visit.footprint < |job.fs|
    requires SlabShows(slab, job.fs[visit.footprint].slab, image, visit.begin)
    ensures Reading(job.o, job.fs[visit.footprint], job.chunksPerRead, slab, image, visit.begin)
  {
    hide SlabShows;
  }

  method CarryReset(job: Reduction, reset: Call, accumulator: StatisticSlots, ghost w: Walked,
                    ghost stored: StoredImage)
    requires job.Valid(stored) && reset.Reset?
    modifies accumulator
    ensures Filling(accumulator, After(w, reset, job.plan, SlabsOf(job.fs)), job.o.regions, job.fs, job.layout,
                    ImageOf(job.planes, stored))
  {
    hide *;
    ReductionMeans(job, stored);
    accumulator.Reset(job.layout, |job.o.regions|, reset.length);
    ghost var w' := After(w, reset, job.plan, SlabsOf(job.fs));
    ResetMeans(w, reset, job.plan, SlabsOf(job.fs));
    NothingReadYet(w', job.o.regions, job.fs, ImageOf(job.planes, stored), accumulator.contents);
    AgainForRegions(accumulator, job.layout, |job.o.regions|, reset.length);
    StillFilling(accumulator, w', job.o.regions, job.fs, job.layout, ImageOf(job.planes, stored));
  }

  lemma ResetMeans(w: Walked, reset: Call, plan: PassPlan, fs: seq<SlabFootprint>)
    requires reset.Reset?
    ensures var w' := After(w, reset, plan, fs);
            w'.visited == {} && w'.length == reset.length && w'.begin == w.begin + w.length && !w'.finished
  {}

  method CarryHandOver(job: Reduction, report: Call, accumulator: StatisticSlots, ghost w: Walked,
                       ghost stored: StoredImage)
    returns (block: SpectralBlock)
    requires job.Valid(stored) && report.HandOver? && Allowed(w, report, job.plan, SlabsOf(job.fs))
    requires Filling(accumulator, w, job.o.regions, job.fs, job.layout, ImageOf(job.planes, stored))
    modifies accumulator`values
    ensures Filling(accumulator, After(w, report, job.plan, SlabsOf(job.fs)), job.o.regions, job.fs, job.layout,
                    ImageOf(job.planes, stored))
    ensures Tells(block, job.layout, w, job.o.regions, job.fs, ImageOf(job.planes, stored))
    ensures report.total > 0 && block.complete == report.complete && block.completeness == Fraction(report)
  {
    hide *;
    ghost var image := ImageOf(job.planes, stored);
    HandOverMeans(w, report, job.plan, job.fs);
    FillingMeans(accumulator, w, job.o.regions, job.fs, job.layout, image);
    ForRegionsMeans(accumulator, job.layout, |job.o.regions|, w.length);
    block := accumulator.HandOver(report.first, report.complete, Fraction(report));
    ReportsWhatWasRead(block, job.layout, accumulator.contents, w, job.o.regions, job.fs, image);
    AgainForRegions(accumulator, job.layout, |job.o.regions|, w.length);
    ghost var w' := After(w, report, job.plan, SlabsOf(job.fs));
    SameRead(accumulator.contents, w, w', job.o.regions, job.fs, image);
    StillFilling(accumulator, w', job.o.regions, job.fs, job.layout, image);
  }

  lemma HandOverMeans(w: Walked, report: Call, plan: PassPlan, fs: seq<OccupiedFootprint>)
    requires report.HandOver? && Allowed(w, report, plan, SlabsOf(fs))
    ensures !w.finished && report.first == w.begin && report.length == w.length && report.total > 0
    ensures report.complete ==> AllVisited(w, |fs|)
    ensures var w' := After(w, report, plan, SlabsOf(fs));
      w'.visited == w.visited && w'.begin == w.begin && w'.length == w.length && w'.finished == report.complete
  {}

  lemma SameRead(contents: seq<seq<Totals>>, w: Walked, w': Walked, regions: seq<PlacedRegion>,
                 fs: seq<OccupiedFootprint>, image: Image)
    requires HoldsRead(contents, w, regions, fs, image)
    requires w'.visited == w.visited && w'.begin == w.begin && w'.length == w.length
    ensures HoldsRead(contents, w', regions, fs, image)
  {
    hide Over;
    forall r: nat, channel: nat | r < |regions|
      ensures PixelsRead(w', regions[r], fs, channel) == PixelsRead(w, regions[r], fs, channel)
    {
      assert FootprintsRead(w', |fs|, channel) == FootprintsRead(w, |fs|, channel);
    }
    hide PixelsRead;
  }

  // What the sink has been handed: each block tells of the walk as it was.
  ghost predicate AllTell(blocks: seq<SpectralBlock>, walks: seq<Walked>, job: Reduction, image: Image) {
    && |walks| == |blocks|
    && forall i :: 0 <= i < |blocks| ==>
         && Tells(blocks[i], job.layout, walks[i], job.o.regions, job.fs, image)
         && (if blocks[i].complete then AllVisited(walks[i], |job.fs|) && blocks[i].completeness == 1.0
             else 0.0 < blocks[i].completeness < 1.0)
  }

  datatype Outcome = Complete | NothingAsked | Refused(refusal: O.Refusal) | Failed | Cancelled

  // Where the calls carried out so far have got.
  ghost predicate Carried(blocks: seq<SpectralBlock>, walks: seq<Walked>, job: Reduction, w: Walked, image: Image) {
    && AllTell(blocks, walks, job, image) && InTurn(Stretches(blocks))
    && Reached(Stretches(blocks)) == if w.finished then w.begin + w.length else w.begin
  }

  lemma NothingCarried(job: Reduction, image: Image)
    ensures Carried([], [], job, NOTHING_WALKED, image)
  {}

  lemma CarriedOn(blocks: seq<SpectralBlock>, walks: seq<Walked>, job: Reduction, w: Walked, call: Call, image: Image)
    requires Carried(blocks, walks, job, w, image) && !call.HandOver? && Allowed(w, call, job.plan, SlabsOf(job.fs))
    ensures Carried(blocks, walks, job, After(w, call, job.plan, SlabsOf(job.fs)), image)
  {
    hide AllTell, InTurn, Reached, PassPlan.Aligned, PassPlan.ChunksTouched;
  }

  lemma CarriedBlock(blocks: seq<SpectralBlock>, walks: seq<Walked>, job: Reduction, w: Walked, report: Call,
                     block: SpectralBlock, image: Image)
    requires Carried(blocks, walks, job, w, image) && report.HandOver? && Allowed(w, report, job.plan, SlabsOf(job.fs))
    requires Tells(block, job.layout, w, job.o.regions, job.fs, image)
    requires report.total > 0 && block.complete == report.complete && block.completeness == Fraction(report)
    ensures Carried(blocks + [block], walks + [w], job, After(w, report, job.plan, SlabsOf(job.fs)), image)
  {
    hide *;
    CarriedMeans(blocks, walks, job, w, image);
    HandOverMeans(w, report, job.plan, job.fs);
    ReportIs(w, report, job.plan, SlabsOf(job.fs));
    FractionIs(report);
    TellsWhere(block, job.layout, w, job.o.regions, job.fs, image);
    OneMoreTells(blocks, walks, job, w, block, image);
    OneMoreBlock(blocks, block);
    ItIsCarried(blocks + [block], walks + [w], job, After(w, report, job.plan, SlabsOf(job.fs)), image);
  }

  lemma FractionIs(report: Call)
    requires report.HandOver? && report.total > 0 && (!report.complete ==> 0 < report.done < report.total)
    ensures if report.complete then Fraction(report) == 1.0 else 0.0 < Fraction(report) < 1.0
  {
    if !report.complete {
      FractionOrder(0, report.done, report.total);
      FractionOrder(report.done, report.total, report.total);
    }
  }

  lemma TellsWhere(block: SpectralBlock, layout: StatisticLayout, w: Walked, regions: seq<PlacedRegion>,
                   fs: seq<OccupiedFootprint>, image: Image)
    requires Tells(block, layout, w, regions, fs, image)
    ensures block.firstChannel == w.begin && block.channelCount == w.length
  {}

  lemma OneMoreTells(blocks: seq<SpectralBlock>, walks: seq<Walked>, job: Reduction, w: Walked, block: SpectralBlock,
                     image: Image)
    requires AllTell(blocks, walks, job, image) && Tells(block, job.layout, w, job.o.regions, job.fs, image)
    requires if block.complete then AllVisited(w, |job.fs|) && block.completeness == 1.0
              else 0.0 < block.completeness < 1.0
    ensures AllTell(blocks + [block], walks + [w], job, image)
  {
    hide Tells, AllVisited;
  }

  lemma ItIsCarried(blocks: seq<SpectralBlock>, walks: seq<Walked>, job: Reduction, w: Walked, image: Image)
    requires AllTell(blocks, walks, job, image) && InTurn(Stretches(blocks))
    requires Reached(Stretches(blocks)) == if w.finished then w.begin + w.length else w.begin
    ensures Carried(blocks, walks, job, w, image)
  {}

  // The calls in order, until one fails, the control stops the walk or the sink says no.
  method CarryOut(job: Reduction, calls: seq<Call>, goesOn: nat -> bool, keepsGoing: nat -> bool,
                  ghost stored: StoredImage)
    returns (outcome: Outcome, blocks: seq<SpectralBlock>, ghost walks: seq<Walked>)
    requires job.Valid(stored) && Follows(NOTHING_WALKED, calls, job.plan, SlabsOf(job.fs))
    ensures AllTell(blocks, walks, job, ImageOf(job.planes, stored)) && InTurn(Stretches(blocks))
    ensures outcome in {Complete, Failed, Cancelled}
    ensures outcome == Complete ==>
              var w := AfterAll(NOTHING_WALKED, calls, job.plan, SlabsOf(job.fs));
              Reached(Stretches(blocks)) == if w.finished then w.begin + w.length else w.begin
  {
    hide *;
    var accumulator := new StatisticSlots();
    var partials: seq<StatisticSlots> := [];
    blocks, walks := [], [];
    ghost var image, slabs := ImageOf(job.planes, stored), SlabsOf(job.fs);
    ghost var w := NOTHING_WALKED;
    NothingCarried(job, image);
    NotFilling(accumulator, job, image);
    NoPartials(accumulator);
    NoCalls(job.plan, slabs);
    assert calls[..0] == [];
    for k := 0 to |calls|
      invariant fresh(accumulator) && Apart(partials, accumulator)
      invariant forall i :: 0 <= i < |partials| ==> fresh(partials[i])
      invariant w == AfterAll(NOTHING_WALKED, calls[..k], job.plan, slabs)
      invariant Filling(accumulator, w, job.o.regions, job.fs, job.layout, image)
      invariant Carried(blocks, walks, job, w, image)
    {
      MayCall(calls, job.plan, slabs, k);
      CarriedMeans(blocks, walks, job, w, image);
      var call := calls[k];
      match call {
        case Reset(_) =>
          if !goesOn(k) {
            return Cancelled, blocks, walks;
          }
          CarryReset(job, call, accumulator, w, stored);
          CarriedOn(blocks, walks, job, w, call, image);
        case Visit(_, _, _, _) =>
          if !goesOn(k) {
            return Cancelled, blocks, walks;
          }
          var read;
          read, partials := CarryVisit(job, call, accumulator, partials, w, stored);
          if !read {
            return Failed, blocks, walks;
          }
          CarriedOn(blocks, walks, job, w, call, image);
        case HandOver(_, _, _, _, _) =>
          var block := CarryHandOver(job, call, accumulator, w, stored);
          CarriedBlock(blocks, walks, job, w, call, block, image);
          blocks, walks := blocks + [block], walks + [w];
          CarriedMeans(blocks, walks, job, After(w, call, job.plan, slabs), image);
          if !keepsGoing(|blocks|) {
            return Cancelled, blocks, walks;
          }
      }
      w := After(w, call, job.plan, slabs);
    }
    assert calls[..|calls|] == calls;
    CarriedMeans(blocks, walks, job, w, image);
    outcome := Complete;
  }

  lemma NotFilling(accumulator: StatisticSlots, job: Reduction, image: Image)
    ensures Filling(accumulator, NOTHING_WALKED, job.o.regions, job.fs, job.layout, image)
  {}

  lemma NoPartials(accumulator: StatisticSlots)
    ensures Apart([], accumulator)
  {}

  lemma MayCall(calls: seq<Call>, plan: PassPlan, fs: seq<SlabFootprint>, k: nat)
    requires Follows(NOTHING_WALKED, calls, plan, fs) && k < |calls|
    ensures Allowed(AfterAll(NOTHING_WALKED, calls[..k], plan, fs), calls[k], plan, fs)
    ensures AfterAll(NOTHING_WALKED, calls[..k + 1], plan, fs)
         == After(AfterAll(NOTHING_WALKED, calls[..k], plan, fs), calls[k], plan, fs)
  {
    assert calls[..k + 1][..k] == calls[..k];
  }

  lemma CarriedMeans(blocks: seq<SpectralBlock>, walks: seq<Walked>, job: Reduction, w: Walked, image: Image)
    requires Carried(blocks, walks, job, w, image)
    ensures AllTell(blocks, walks, job, image) && InTurn(Stretches(blocks))
    ensures Reached(Stretches(blocks)) == if w.finished then w.begin + w.length else w.begin
  {}

  // ---- The reduction ----

  // A complete block is the answer to the request: of every region, channel and statistic it carries,
  // what the pixels the caller picked there come to, each counted once.
  ghost predicate Answers(block: SpectralBlock, requested: set<Statistic>, given: seq<RegionMask>, planes: Planes,
                          stored: StoredImage) {
    && block.regionCount == |given|
    && forall r: nat, c: nat, s: Statistic :: r < |given| && c < block.channelCount ==>
         block.Series(r, s, c)
         == if s in requested || (SumSqDev in requested && (s == NumPixels || s == Sum))
            then (true, Report(s, Over(Picked(given[r]), ImageOf(planes, stored), block.firstChannel + c)))
            else (false, Finite(0.0))
  }

  lemma CompleteAnswers(block: SpectralBlock, w: Walked, job: Reduction, requested: set<Statistic>,
                        given: seq<RegionMask>, planes: Planes, stored: StoredImage, swapSpatial: bool)
    requires Tells(block, job.layout, w, job.o.regions, job.fs, ImageOf(job.planes, stored)) && AllVisited(w, |job.fs|)
    requires job.Valid(stored) && planes.Valid() && job.planes == WalkPlanes(planes, swapSpatial)
    requires O.SameButRuns(job.o.regions, O.PlainOf(given, swapSpatial))
    requires forall s :: job.layout.Has(s) <==>
              s in requested || (SumSqDev in requested && (s == NumPixels || s == Sum))
    ensures Answers(block, requested, given, planes, stored)
  {
    hide Over, PixelsRead, AllPixels, Picked, ImageOf, Report, SpectralBlock.Series, Cut, AllVisited, ServesImage,
      PassPlan.Valid, Planes.Valid, StatisticLayout.Has, WalkPlanes, Plain;
    forall r: nat, c: nat, s: Statistic | r < |given| && c < block.channelCount
      ensures block.Series(r, s, c)
           == if s in requested || (SumSqDev in requested && (s == NumPixels || s == Sum))
              then (true, Report(s, Over(Picked(given[r]), ImageOf(planes, stored), block.firstChannel + c)))
              else (false, Finite(0.0))
    {
      AllRead(w, job.o, r, job.fs, job.chunksPerRead, w.begin + c);
      OverPicked(job.o.regions[r], given[r], swapSpatial, planes, stored, w.begin + c);
    }
  }

  // What a reduction is given beside its request: the plan of its pass over the checked planes, and
  // how its arithmetic may be divided. `planes` walks along the image's own x and y.
  ghost predicate Given(plan: PassPlan, planes: Planes, source: PixelSource, stored: StoredImage, workers: nat) {
    && plan.Valid() && planes.Valid() && ServesImage(source, stored) && workers >= 1
    && planes.channels == P.Range(plan.start, plan.count, plan.stride)
  }

  // The region sets a reduction takes.
  ghost predicate Accepts(given: seq<RegionMask>, plane: O.PlaneExtent, plan: PassPlan, swapSpatial: bool)
    requires plan.chunkU > 0 && plan.chunkV > 0
  {
    && O.Acceptable(given, plane)
    && O.IncidenceCount(O.PlainOf(given, swapSpatial), plan.chunkU, plan.chunkV) <= CellScan.MAX_CHUNK_INCIDENCES
  }

  method ReduceSpectral(given: seq<RegionMask>, requested: set<Statistic>, hint: nat, plane: O.PlaneExtent,
                        plan: PassPlan,
                        planes: Planes, swapSpatial: bool, source: PixelSource, workers: nat, partialBudget: nat,
                        leastPixels: nat, goesOn: nat -> bool, keepsGoing: nat -> bool, ghost stored: StoredImage)
    returns (outcome: Outcome, blocks: seq<SpectralBlock>)
    requires Given(plan, planes, source, stored, workers)
    ensures outcome == NothingAsked <==> requested == {}
    ensures outcome.Refused? <==> requested != {} && !Accepts(given, plane, plan, swapSpatial)
    ensures outcome.NothingAsked? || outcome.Refused? ==> blocks == []
    // Whatever came of it, every complete block is right, and the blocks came in turn.
    ensures forall i :: 0 <= i < |blocks| && blocks[i].complete ==>
              Answers(blocks[i], requested, given, planes, stored) && blocks[i].completeness == 1.0
    ensures forall i :: 0 <= i < |blocks| && !blocks[i].complete ==> 0.0 < blocks[i].completeness < 1.0
    ensures InTurn(Stretches(blocks))
    // And when it ran to the end, the complete blocks cover the selection.
    ensures outcome == Complete ==> Reached(Stretches(blocks)) == plan.count
  {
    hide *;
    NoneInTurn();
    if requested == {} {
      return NothingAsked, [];
    }
    GivenMeans(plan, planes, source, stored, workers);
    var placed := O.Of(given, plane, plan.chunkU, plan.chunkV, swapSpatial);
    AcceptsMeans(given, plane, plan, swapSpatial);
    if placed.Err? {
      return Refused(placed.error), [];
    }
    var o := placed.value;
    BuiltIsUsable(o, given, plan.chunkU, plan.chunkV, swapSpatial);
    var fs := Footprints.Footprints(o, plan.ChunksPerRead());
    var layout := LayoutOf(requested);
    var job := Reduction(o, fs, plan, plan.ChunksPerRead(), layout, WalkPlanes(planes, swapSpatial), source, workers,
                         partialBudget, leastPixels);
    ItIsAReduction(job, planes, swapSpatial, stored);
    var calls := InBlocks(plan, SlabsOf(fs), LayerOf(SlabsOf(fs)), |o.regions| * layout.Stored() * 8, hint);
    ghost var walks;
    outcome, blocks, walks := CarryOut(job, calls, goesOn, keepsGoing, stored);
    BuiltRegions(o, given, plan.chunkU, plan.chunkV, swapSpatial);
    forall i | 0 <= i < |blocks|
      ensures blocks[i].complete ==>
                Answers(blocks[i], requested, given, planes, stored) && blocks[i].completeness == 1.0
      ensures !blocks[i].complete ==> 0.0 < blocks[i].completeness < 1.0
    {
      BlockTells(blocks, walks, job, ImageOf(job.planes, stored), i);
      if blocks[i].complete {
        CompleteAnswers(blocks[i], walks[i], job, requested, given, planes, stored, swapSpatial);
      }
    }
  }

  lemma NoneInTurn()
    ensures InTurn(Stretches([]))
  {}

  lemma AcceptsMeans(given: seq<RegionMask>, plane: O.PlaneExtent, plan: PassPlan, swapSpatial: bool)
    requires plan.chunkU > 0 && plan.chunkV > 0
    ensures O.Acceptable(given, plane) ==>
              given != [] && O.PlainOf(given, swapSpatial) != [] && O.PlainOf(given, swapSpatial)[0].uSize > 0
              && O.PlainOf(given, swapSpatial)[0].vSize > 0
    ensures Accepts(given, plane, plan, swapSpatial) <==>
              O.Acceptable(given, plane)
              && O.IncidenceCount(O.PlainOf(given, swapSpatial), plan.chunkU, plan.chunkV)
                  <= CellScan.MAX_CHUNK_INCIDENCES
  {}

  lemma GivenMeans(plan: PassPlan, planes: Planes, source: PixelSource, stored: StoredImage, workers: nat)
    requires Given(plan, planes, source, stored, workers)
    ensures plan.Valid() && planes.Valid() && ServesImage(source, stored) && workers >= 1
    ensures plan.chunkU > 0 && plan.chunkV > 0
  {}

  lemma ItIsAReduction(job: Reduction, planes: Planes, swapSpatial: bool, stored: StoredImage)
    requires job.plan.Valid() && planes.Valid() && ServesImage(job.source, stored) && job.workers >= 1
    requires job.planes == WalkPlanes(planes, swapSpatial) && job.layout.Valid()
    requires Usable(job.o) && AllWellCut(job.fs, job.o, job.chunksPerRead) && Partitions(job.fs, job.o)
    ensures job.Valid(stored) && Occupying(SlabsOf(job.fs)) && |job.layout.slotOf| == |ORDER|
  {
    forall i | 0 <= i < |job.fs| ensures job.fs[i].slab.chunks >= 1 {
      assert WellCut(job.fs[i], job.o, job.chunksPerRead);
    }
    hide Usable, Partitions, ServesImage, PassPlan.Valid;
  }

  lemma BuiltRegions(o: O.Occupancy, given: seq<RegionMask>, chunkU: nat, chunkV: nat, swapSpatial: bool)
    requires O.Built(o, given, chunkU, chunkV, swapSpatial)
    ensures O.SameButRuns(o.regions, O.PlainOf(given, swapSpatial))
  {}

  lemma BlockTells(blocks: seq<SpectralBlock>, walks: seq<Walked>, job: Reduction, image: Image, i: nat)
    requires AllTell(blocks, walks, job, image) && i < |blocks|
    ensures |walks| == |blocks| && Tells(blocks[i], job.layout, walks[i], job.o.regions, job.fs, image)
    ensures if blocks[i].complete then AllVisited(walks[i], |job.fs|) && blocks[i].completeness == 1.0
            else 0.0 < blocks[i].completeness < 1.0
  {}
}
