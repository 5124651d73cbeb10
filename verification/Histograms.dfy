// The whole of a plane histogram: ComputeHistogram, src/reduce/plane_histogram.cc. One pass over the planes
// asked for, block by block, and each block's counts handed over as it fills.

module Histograms {
  import opened Wrappers
  import opened Values
  import opened Footprints
  import opened SlabReduction
  import opened SlabReads
  import opened TaskSplits
  import opened Passes
  import opened PlaneBands
  import opened PlaneReads
  import opened PlaneContents
  import opened PlaneHistograms
  import opened WalkAxes
  import P = PixelSelections
  import C = CubeHistograms
  import B = ChunkBlocks

  // ---- What a block's counts hold ----

  // Bin b of channel c of the block counts the pixels read of that channel that are in it.
  ghost predicate CountsRead(counts: seq<nat>, w: Walked, fs: seq<SlabFootprint>, image: Image, bins: Bins)
    requires bins.Valid()
  {
    && |counts| == TaskBin(w.length, bins.count, 0)
    && forall c: nat, b: nat :: c < w.length && b < bins.count ==> CountsBin(counts, w, fs, image, bins, c, b)
  }

  ghost predicate CountsBin(counts: seq<nat>, w: Walked, fs: seq<SlabFootprint>, image: Image, bins: Bins, c: nat,
                            b: nat)
    requires bins.Valid()
  {
    && TaskBin(c, bins.count, b) < |counts|
    && counts[TaskBin(c, bins.count, b)]
       == |InSet(PlaneRead(w.visited, fs, w.begin + c), image, w.begin + c, bins, b)|
  }

  lemma NothingCountedYet(w: Walked, fs: seq<SlabFootprint>, image: Image, bins: Bins, counts: seq<nat>)
    requires bins.Valid() && w.visited == {} && |counts| == TaskBin(w.length, bins.count, 0)
    requires forall i :: 0 <= i < |counts| ==> counts[i] == 0
    ensures CountsRead(counts, w, fs, image, bins)
  {
    forall c: nat, b: nat | c < w.length && b < bins.count ensures CountsBin(counts, w, fs, image, bins, c, b) {
      Digit(b, c, bins.count, w.length);
      NothingOfThePlane(fs, w.begin + c);
      assert InSet({}, image, w.begin + c, bins, b) == {};
    }
  }

  lemma SlabCounts(before: seq<nat>, after: seq<nat>, w: Walked, w': Walked, plan: PassPlan, fs: seq<SlabFootprint>,
                   f: nat, begin: nat, end: nat, image: Image, bins: Bins, slab: Slab)
    requires bins.Valid() && plan.sample > 0 && Tiling(fs, plan) && f < |fs| && CountsRead(before, w, fs, image, bins)
    requires w.begin <= begin < end <= w.begin + w.length && forall c :: begin <= c < end ==> (f, c) !in w.visited
    requires w'.visited == w.visited + Channels(f, begin, end) && w'.begin == w.begin && w'.length == w.length
    requires Showing(slab, fs[f], image, begin) && Entire(slab)
    requires slab.firstChannel == begin - w.begin && slab.channelCount == end - begin
    requires SlabCounted(before, after, bins, slab, slab.channelCount)
    ensures CountsRead(after, w', fs, image, bins)
  {
    hide *;
    CountsMean(before, w, fs, image, bins);
    SlabCountedSize(before, after, bins, slab);
    forall c: nat, b: nat | c < w.length && b < bins.count ensures CountsBin(after, w', fs, image, bins, c, b) {
      CountsMeanBin(before, w, fs, image, bins, c, b);
      OneMoreFooting(w.visited, fs, plan, f, begin, end, w.begin + c);
      BinCounted(before, after, bins, slab, w, begin, end, c, b);
      var had, more := PlaneRead(w.visited, fs, w.begin + c), if begin <= w.begin + c < end then Footing(fs[f]) else {};
      InSetUnion(had, more, image, w.begin + c, bins, b);
      BandMeans(fs, plan, f);
      if begin <= w.begin + c < end {
        PlaneHolds(slab, fs[f], image, begin, w.begin + c - begin, bins, b);
      } else {
        NoneInSet(image, w.begin + c, bins, b);
      }
      ItCounts(after, w', fs, image, bins, c, b);
    }
    TheyCount(after, w', fs, image, bins);
  }

  lemma CountsMean(counts: seq<nat>, w: Walked, fs: seq<SlabFootprint>, image: Image, bins: Bins)
    requires bins.Valid() && CountsRead(counts, w, fs, image, bins)
    ensures |counts| == TaskBin(w.length, bins.count, 0)
  {}

  lemma CountsMeanBin(counts: seq<nat>, w: Walked, fs: seq<SlabFootprint>, image: Image, bins: Bins, c: nat, b: nat)
    requires bins.Valid() && CountsRead(counts, w, fs, image, bins) && c < w.length && b < bins.count
    ensures TaskBin(c, bins.count, b) < |counts|
    ensures counts[TaskBin(c, bins.count, b)]
         == |InSet(PlaneRead(w.visited, fs, w.begin + c), image, w.begin + c, bins, b)|
  {
    hide InSet, TaskBin;
    assert CountsBin(counts, w, fs, image, bins, c, b);
  }

  lemma ItCounts(counts: seq<nat>, w: Walked, fs: seq<SlabFootprint>, image: Image, bins: Bins, c: nat, b: nat)
    requires bins.Valid() && TaskBin(c, bins.count, b) < |counts|
    requires counts[TaskBin(c, bins.count, b)]
          == |InSet(PlaneRead(w.visited, fs, w.begin + c), image, w.begin + c, bins, b)|
    ensures CountsBin(counts, w, fs, image, bins, c, b)
  {}

  lemma TheyCount(counts: seq<nat>, w: Walked, fs: seq<SlabFootprint>, image: Image, bins: Bins)
    requires bins.Valid() && |counts| == TaskBin(w.length, bins.count, 0)
    requires forall c: nat, b: nat :: c < w.length && b < bins.count ==> CountsBin(counts, w, fs, image, bins, c, b)
    ensures CountsRead(counts, w, fs, image, bins)
  {}

  lemma NoneInSet(image: Image, channel: nat, bins: Bins, b: nat)
    requires bins.Valid()
    ensures |InSet({}, image, channel, bins, b)| == 0
  {
    assert InSet({}, image, channel, bins, b) == {};
  }

  lemma BandMeans(fs: seq<SlabFootprint>, plan: PassPlan, f: nat)
    requires plan.sample > 0 && Tiling(fs, plan) && f < |fs|
    ensures fs[f].uStride > 0 && fs[f].vStride > 0
  {
    assert WellBanded(fs[f], plan);
  }

  lemma SlabCountedSize(before: seq<nat>, after: seq<nat>, bins: Bins, slab: Slab)
    requires bins.Valid() && Entire(slab) && SlabCounted(before, after, bins, slab, slab.channelCount)
    ensures |after| == |before|
  {}

  // A read adds to the counts of its channels and no others.
  lemma BinCounted(before: seq<nat>, after: seq<nat>, bins: Bins, slab: Slab, w: Walked, begin: nat, end: nat, c: nat,
                   b: nat)
    requires bins.Valid() && Entire(slab) && SlabCounted(before, after, bins, slab, slab.channelCount)
    requires w.begin <= begin < end && slab.firstChannel == begin - w.begin && slab.channelCount == end - begin
    requires b < bins.count && TaskBin(c, bins.count, b) < |before| == |after|
    ensures after[TaskBin(c, bins.count, b)]
         == before[TaskBin(c, bins.count, b)]
            + if begin <= w.begin + c < end then InBin(PlaneRows(slab, w.begin + c - begin, 0, slab.vCount), bins, b)
                else 0
  {
    hide InBin, PlaneRows, Entire;
    var first := slab.firstChannel;
    if begin <= w.begin + c < end {
      assert ChannelCounted(before, after, bins, slab, c - first, b);
      assert first + (c - first) == c;
    } else {
      Outside(c, first, first + slab.channelCount, bins.count, b);
    }
  }

  lemma Outside(c: nat, first: nat, last: nat, count: nat, b: nat)
    requires b < count && first <= last && !(first <= c < last)
    ensures !(TaskBin(first, count, 0) <= TaskBin(c, count, b) < TaskBin(last, count, 0))
  {
    if c < first {
      B.MulMono(c + 1, first, count);
      Steps(c, c, count);
    } else {
      B.MulMono(last, c, count);
    }
  }

  // ---- Blocks ----

  datatype HistogramBlock = HistogramBlock(firstChannel: nat, channelCount: nat, binCount: nat, counts: seq<nat>,
                                           complete: bool, completeness: real)
  {
    // The count of a bin of one of its channels.
    function Count(c: nat, b: nat): nat
      requires TaskBin(c, binCount, b) < |counts|
    {
      counts[TaskBin(c, binCount, b)]
    }
  }

  // A block tells of the walk as it was.
  ghost predicate Tells(block: HistogramBlock, w: Walked, fs: seq<SlabFootprint>, image: Image, bins: Bins)
    requires bins.Valid()
  {
    && block.firstChannel == w.begin && block.channelCount == w.length && block.binCount == bins.count
    && CountsRead(block.counts, w, fs, image, bins)
    && (if block.complete then AllVisited(w, |fs|) && block.completeness == 1.0 else 0.0 < block.completeness < 1.0)
  }

  ghost function Stretches(blocks: seq<HistogramBlock>): (stretches: seq<Stretch>)
    ensures |stretches| == |blocks|
  {
    seq(|blocks|, i requires 0 <= i < |blocks| =>
      Stretch(blocks[i].firstChannel, blocks[i].channelCount, blocks[i].complete))
  }

  // Where the calls carried out so far have got.
  ghost predicate Carried(blocks: seq<HistogramBlock>, walks: seq<Walked>, fs: seq<SlabFootprint>, w: Walked,
                          image: Image, bins: Bins)
    requires bins.Valid()
  {
    && |walks| == |blocks| && (forall i :: 0 <= i < |blocks| ==> Tells(blocks[i], walks[i], fs, image, bins))
    && InTurn(Stretches(blocks))
    && Reached(Stretches(blocks)) == if w.finished then w.begin + w.length else w.begin
  }

  lemma NothingCarried(fs: seq<SlabFootprint>, image: Image, bins: Bins)
    requires bins.Valid()
    ensures Carried([], [], fs, NOTHING_WALKED, image, bins)
  {}

  lemma CarriedOn(blocks: seq<HistogramBlock>, walks: seq<Walked>, fs: seq<SlabFootprint>, w: Walked, call: Call,
                  plan: PassPlan, image: Image, bins: Bins)
    requires bins.Valid() && Carried(blocks, walks, fs, w, image, bins) && !call.HandOver? && Allowed(w, call, plan, fs)
    ensures Carried(blocks, walks, fs, After(w, call, plan, fs), image, bins)
  {
    hide Tells, InTurn, Reached, PassPlan.Aligned, PassPlan.ChunksTouched;
  }

  lemma CarriedBlock(blocks: seq<HistogramBlock>, walks: seq<Walked>, fs: seq<SlabFootprint>, w: Walked, report: Call,
                     plan: PassPlan, image: Image, bins: Bins, block: HistogramBlock)
    requires bins.Valid() && Carried(blocks, walks, fs, w, image, bins) && report.HandOver?
    requires Allowed(w, report, plan, fs)
    requires Tells(block, w, fs, image, bins) && block.complete == report.complete
    ensures Carried(blocks + [block], walks + [w], fs, After(w, report, plan, fs), image, bins)
  {
    var stretch := Stretch(block.firstChannel, block.channelCount, block.complete);
    assert Stretches(blocks + [block]) == Stretches(blocks) + [stretch];
    assert block.firstChannel == w.begin && block.channelCount == w.length;
    ReportIs(w, report, plan, fs);
    ReportStands(w, report, plan, fs);
    hide Tells, InTurn, Reached, Allowed, After;
    OneMoreStretch(Stretches(blocks), stretch);
  }

  lemma ReportStands(w: Walked, report: Call, plan: PassPlan, fs: seq<SlabFootprint>)
    requires report.HandOver? && Allowed(w, report, plan, fs)
    ensures !w.finished && report.first == w.begin && report.length == w.length
    ensures report.complete ==> AllVisited(w, |fs|)
    ensures var after := After(w, report, plan, fs);
      && after.visited == w.visited && after.begin == w.begin && after.length == w.length
      && after.finished == report.complete
    ensures report.total > 0 && if report.complete then Fraction(report) == 1.0 else 0.0 < Fraction(report) < 1.0
  {
    ReportIs(w, report, plan, fs);
    if !report.complete {
      FractionOrder(0, report.done, report.total);
      FractionOrder(report.done, report.total, report.total);
    }
  }

  // ---- Carrying the calls out ----

  // What a histogram has fixed before it reads.
  datatype Job = Job(plan: PassPlan, fs: seq<SlabFootprint>, planes: Planes, source: PixelSource, split: TaskSplit,
                     bins: Bins)
  {
    ghost predicate Valid(stored: StoredImage) {
      plan.Valid() && Tiling(fs, plan) && planes.Valid() && ServesImage(source, stored) && bins.Valid()
    }
  }

  lemma JobMeans(job: Job, stored: StoredImage)
    requires job.Valid(stored)
    ensures job.plan.Valid() && job.plan.sample > 0 && Tiling(job.fs, job.plan) && job.planes.Valid()
    ensures ServesImage(job.source, stored) && job.bins.Valid()
  {}

  lemma VisitStands(w: Walked, visit: Call, plan: PassPlan, fs: seq<SlabFootprint>)
    requires visit.Visit? && Allowed(w, visit, plan, fs)
    ensures !w.finished && visit.footprint < |fs| && visit.first == visit.begin - w.begin
    ensures w.begin <= visit.begin < visit.end <= w.begin + w.length
    ensures forall c :: visit.begin <= c < visit.end ==> (visit.footprint, c) !in w.visited
    ensures var w' := After(w, visit, plan, fs);
      && w'.visited == w.visited + Channels(visit.footprint, visit.begin, visit.end)
      && w'.begin == w.begin && w'.length == w.length && !w'.finished
  {
    hide PassPlan.Aligned, PassPlan.ChunksTouched;
  }

  // One read, binned.
  method CarryVisit(job: Job, visit: Call, counts: seq<nat>, ghost w: Walked, ghost stored: StoredImage)
    returns (read: bool, after: seq<nat>)
    requires job.Valid(stored) && visit.Visit? && Allowed(w, visit, job.plan, job.fs) && job.bins.Valid()
    requires CountsRead(counts, w, job.fs, ImageOf(job.planes, stored), job.bins)
    ensures read ==> CountsRead(after, After(w, visit, job.plan, job.fs), job.fs, ImageOf(job.planes, stored), job.bins)
  {
    hide *;
    ghost var image := ImageOf(job.planes, stored);
    JobMeans(job, stored);
    VisitStands(w, visit, job.plan, job.fs);
    CountsMean(counts, w, job.fs, image, job.bins);
    var f := job.fs[visit.footprint];
    var slab := ReadSlab(job.source, job.planes, f, visit.begin, visit.end - visit.begin, visit.first, stored);
    if slab.None? {
      return false, counts;
    }
    C.ItShows(slab.value, f, image, visit.begin);
    ShowingIsWhole(slab.value, f, image, visit.begin);
    UpToBlock(visit.first + (visit.end - visit.begin), w.length, job.bins.count);
    after := BinSlab(job.bins, slab.value, job.split, counts);
    SlabCounts(counts, after, w, After(w, visit, job.plan, job.fs), job.plan, job.fs, visit.footprint, visit.begin,
               visit.end,
               image, job.bins, slab.value);
    read := true;
  }

  lemma UpToBlock(last: nat, length: nat, count: nat)
    requires last <= length
    ensures TaskBin(last, count, 0) <= TaskBin(length, count, 0)
  {
    B.MulMono(last, length, count);
  }

  datatype Outcome = Complete | BadBins | BadRange | Failed | Cancelled

  // The counts while a block is being filled.
  ghost predicate Filling(counts: seq<nat>, w: Walked, fs: seq<SlabFootprint>, image: Image, bins: Bins)
    requires bins.Valid()
  {
    !w.finished ==> CountsRead(counts, w, fs, image, bins)
  }

  lemma StillFilling(counts: seq<nat>, w: Walked, w': Walked, fs: seq<SlabFootprint>, image: Image, bins: Bins)
    requires bins.Valid() && CountsRead(counts, w, fs, image, bins)
    requires w'.visited == w.visited && w'.begin == w.begin && w'.length == w.length
    ensures Filling(counts, w', fs, image, bins)
  {
    hide InSet, PlaneRead, TaskBin;
    forall c: nat, b: nat | c < w'.length && b < bins.count ensures CountsBin(counts, w', fs, image, bins, c, b) {
      assert CountsBin(counts, w, fs, image, bins, c, b);
    }
  }

  lemma FillingMeans(counts: seq<nat>, w: Walked, fs: seq<SlabFootprint>, image: Image, bins: Bins)
    requires bins.Valid()
    ensures !w.finished ==> (Filling(counts, w, fs, image, bins) <==> CountsRead(counts, w, fs, image, bins))
    ensures w.finished ==> Filling(counts, w, fs, image, bins)
  {}

  lemma ItTells(block: HistogramBlock, w: Walked, fs: seq<SlabFootprint>, image: Image, bins: Bins)
    requires bins.Valid() && CountsRead(block.counts, w, fs, image, bins)
    requires block.firstChannel == w.begin && block.channelCount == w.length && block.binCount == bins.count
    requires if block.complete then AllVisited(w, |fs|) && block.completeness == 1.0 else 0.0 < block.completeness < 1.0
    ensures Tells(block, w, fs, image, bins)
  {}

  lemma ResetStands(w: Walked, reset: Call, plan: PassPlan, fs: seq<SlabFootprint>)
    requires reset.Reset?
    ensures var w' := After(w, reset, plan, fs); w'.visited == {} && w'.length == reset.length && !w'.finished
  {}

  lemma NothingWalkedIsFinished()
    ensures NOTHING_WALKED.finished
  {}

  method CarryOut(job: Job, calls: seq<Call>, goesOn: nat -> bool, keepsGoing: nat -> bool, ghost stored: StoredImage)
    returns (outcome: Outcome, blocks: seq<HistogramBlock>, ghost walks: seq<Walked>, ghost w: Walked)
    requires job.Valid(stored) && Follows(NOTHING_WALKED, calls, job.plan, job.fs)
    ensures outcome.Complete? || outcome.Failed? || outcome.Cancelled?
    ensures job.bins.Valid() && Carried(blocks, walks, job.fs, w, ImageOf(job.planes, stored), job.bins)
    ensures outcome.Complete? ==> w == AfterAll(NOTHING_WALKED, calls, job.plan, job.fs)
  {
    hide *;
    ghost var image := ImageOf(job.planes, stored);
    JobMeans(job, stored);
    blocks, walks, w := [], [], NOTHING_WALKED;
    var counts: seq<nat> := [];
    NothingCarried(job.fs, image, job.bins);
    NothingWalkedIsFinished();
    FillingMeans(counts, w, job.fs, image, job.bins);
    C.NoneAfter(NOTHING_WALKED, calls, job.plan, job.fs);
    for k := 0 to |calls|
      invariant w == AfterAll(NOTHING_WALKED, calls[..k], job.plan, job.fs)
      invariant Filling(counts, w, job.fs, image, job.bins)
      invariant Carried(blocks, walks, job.fs, w, image, job.bins)
    {
      C.NextCall(NOTHING_WALKED, calls, job.plan, job.fs, k);
      var call := calls[k];
      ghost var after := After(w, call, job.plan, job.fs);
      FillingMeans(counts, w, job.fs, image, job.bins);
      match call {
        case Reset(length) =>
          counts := seq(TaskBin(length, job.bins.count, 0), _ => 0);
          ResetStands(w, call, job.plan, job.fs);
          NothingCountedYet(after, job.fs, image, job.bins, counts);
          CarriedOn(blocks, walks, job.fs, w, call, job.plan, image, job.bins);
        case Visit(_, _, _, _) =>
          if !goesOn(k) {
            return Cancelled, blocks, walks, w;
          }
          VisitStands(w, call, job.plan, job.fs);
          var read, more := CarryVisit(job, call, counts, w, stored);
          if !read {
            return Failed, blocks, walks, w;
          }
          counts := more;
          CarriedOn(blocks, walks, job.fs, w, call, job.plan, image, job.bins);
        case HandOver(_, _, _, _, _) =>
          ReportStands(w, call, job.plan, job.fs);
          var block := HistogramBlock(call.first, call.length, job.bins.count, counts, call.complete, Fraction(call));
          ItTells(block, w, job.fs, image, job.bins);
          CarriedBlock(blocks, walks, job.fs, w, call, job.plan, image, job.bins, block);
          StillFilling(counts, w, after, job.fs, image, job.bins);
          blocks, walks := blocks + [block], walks + [w];
          if !keepsGoing(|blocks|) {
            return Cancelled, blocks, walks, after;
          }
      }
      w := after;
      FillingMeans(counts, w, job.fs, image, job.bins);
    }
    assert calls[..|calls|] == calls;
    outcome := Complete;
  }

  // ---- From the request ----

  // What a histogram is given beside its request: the plan of its pass over the checked planes, of a plane that
  // has pixels and of which it takes each. `planes` walks along the image's own x and y.
  ghost predicate Given(plan: PassPlan, planes: Planes, source: PixelSource, stored: StoredImage, workers: nat) {
    && plan.Valid() && Bandable(plan) && plan.sample == 1 && planes.Valid() && ServesImage(source, stored)
    && workers >= 1
    && planes.channels == P.Range(plan.start, plan.count, plan.stride)
    && B.Max(1, plan.layerChunks) == B.Max(1, RowChunks(plan) * ColumnChunks(plan))
  }

  // Every pixel of a plane.
  ghost function Plane(width: nat, height: nat): set<At> {
    set u: nat, v: nat | u < width && v < height :: At(u, v)
  }

  lemma EverySample(width: nat, height: nat)
    ensures Sampled(width, height, 1) == Plane(width, height)
  {
    SampledIs(width, height, 1);
    forall p: At ensures p in Sampled(width, height, 1) <==> p in Plane(width, height) { assert p == At(p.u, p.v); }
  }

  lemma {:induction false} SwapKeepsSize(s: set<At>)
    ensures |SwapAll(s)| == |s|
    decreases |s|
  {
    if s != {} {
      var p :| p in s;
      OneSwapped(s, p);
      SwapKeepsSize(s - {p});
    } else {
      NoneSwapped();
    }
  }

  lemma InSetSwapped(s: set<At>, a: Image, b: Image, channel: nat, bins: Bins, bin: nat)
    requires bins.Valid() && Transposed(a, b)
    ensures |InSet(SwapAll(s), b, channel, bins, bin)| == |InSet(s, a, channel, bins, bin)|
  {
    hide BinOf;
    forall p | p in s ensures b(p.v, p.u, channel) == a(p.u, p.v, channel) { SamePixel(p, a, b, channel); }
    forall p: At
      ensures p in InSet(SwapAll(s), b, channel, bins, bin) <==> p in SwapAll(InSet(s, a, channel, bins, bin))
    {
      if p in SwapAll(s) {
        var q :| q in s && p == Swapped(q);
        assert b(p.u, p.v, channel) == a(q.u, q.v, channel);
      }
      if p in SwapAll(InSet(s, a, channel, bins, bin)) {
        var q :| q in InSet(s, a, channel, bins, bin) && p == Swapped(q);
        assert q in s;
      }
    }
    assert InSet(SwapAll(s), b, channel, bins, bin) == SwapAll(InSet(s, a, channel, bins, bin));
    SwapKeepsSize(InSet(s, a, channel, bins, bin));
  }

  // A complete block is the answer: each bin of each channel counts exactly the pixels of that plane in it.
  ghost predicate Answers(block: HistogramBlock, plan: PassPlan, swapSpatial: bool, planes: Planes, stored: StoredImage,
                          bins: Bins)
    requires bins.Valid()
  {
    && block.binCount == bins.count
    && forall c: nat, b: nat :: c < block.channelCount && b < bins.count ==>
         AnswersBin(block, plan, swapSpatial, planes, stored, bins, c, b)
  }

  ghost predicate AnswersBin(block: HistogramBlock, plan: PassPlan, swapSpatial: bool, planes: Planes,
                             stored: StoredImage, bins: Bins, c: nat, b: nat)
    requires bins.Valid()
  {
    var width := if swapSpatial then plan.vLength else plan.uLength;
    var height := if swapSpatial then plan.uLength else plan.vLength;
    && TaskBin(c, block.binCount, b) < |block.counts|
    && block.Count(c, b)
       == |InSet(Plane(width, height), ImageOf(planes, stored), block.firstChannel + c, bins, b)|
  }

  lemma CompleteAnswers(block: HistogramBlock, w: Walked, plan: PassPlan, fs: seq<SlabFootprint>, swapSpatial: bool,
                        planes: Planes, stored: StoredImage, bins: Bins)
    requires bins.Valid() && planes.Valid() && plan.sample == 1 && Tiling(fs, plan) && block.complete
    requires Tells(block, w, fs, ImageOf(WalkPlanes(planes, swapSpatial), stored), bins)
    ensures Answers(block, plan, swapSpatial, planes, stored, bins)
  {
    hide *;
    var image := ImageOf(WalkPlanes(planes, swapSpatial), stored);
    TellsMeans(block, w, fs, image, bins);
    forall c: nat, b: nat | c < block.channelCount && b < bins.count
      ensures AnswersBin(block, plan, swapSpatial, planes, stored, bins, c, b)
    {
      CountsMeanBin(block.counts, w, fs, image, bins, c, b);
      AllOfChannel(w, fs, w.begin + c);
      PlaneIsRead(w.visited, fs, plan, w.begin + c);
      EverySample(plan.uLength, plan.vLength);
      PlaneSwapped(plan.uLength, plan.vLength);
      if swapSpatial {
        ImagesTransposed(planes, stored);
        InSetSwapped(Plane(plan.uLength, plan.vLength), image, ImageOf(planes, stored), w.begin + c, bins, b);
      } else {
        WalkPlanesIs(planes);
      }
      ItAnswers(block, plan, swapSpatial, planes, stored, bins, c, b);
    }
    TheyAnswer(block, plan, swapSpatial, planes, stored, bins);
  }

  lemma TellsMeans(block: HistogramBlock, w: Walked, fs: seq<SlabFootprint>, image: Image, bins: Bins)
    requires bins.Valid() && Tells(block, w, fs, image, bins)
    ensures block.firstChannel == w.begin && block.channelCount == w.length && block.binCount == bins.count
    ensures CountsRead(block.counts, w, fs, image, bins)
    ensures block.complete ==> AllVisited(w, |fs|) && block.completeness == 1.0
    ensures !block.complete ==> 0.0 < block.completeness < 1.0
  {}

  lemma AllOfChannel(w: Walked, fs: seq<SlabFootprint>, channel: nat)
    requires AllVisited(w, |fs|) && w.begin <= channel < w.begin + w.length
    ensures forall f: nat :: f < |fs| ==> (f, channel) in w.visited
  {}

  lemma PlaneSwapped(width: nat, height: nat)
    ensures SwapAll(Plane(width, height)) == Plane(height, width)
  {
    forall p: At ensures p in SwapAll(Plane(width, height)) <==> p in Plane(height, width) {
      assert p == Swapped(At(p.v, p.u)) && p == At(p.u, p.v);
    }
  }

  lemma WalkPlanesIs(planes: Planes)
    ensures WalkPlanes(planes, false) == planes
  {}

  lemma ItAnswers(block: HistogramBlock, plan: PassPlan, swapSpatial: bool, planes: Planes, stored: StoredImage,
                  bins: Bins, c: nat, b: nat)
    requires bins.Valid() && TaskBin(c, bins.count, b) < |block.counts| && block.binCount == bins.count
    requires block.counts[TaskBin(c, bins.count, b)]
          == |InSet(if swapSpatial then Plane(plan.vLength, plan.uLength) else Plane(plan.uLength, plan.vLength),
                    ImageOf(planes, stored), block.firstChannel + c, bins, b)|
    ensures AnswersBin(block, plan, swapSpatial, planes, stored, bins, c, b)
  {
    hide Plane, ImageOf, InSet, TaskBin;
  }

  lemma TheyAnswer(block: HistogramBlock, plan: PassPlan, swapSpatial: bool, planes: Planes, stored: StoredImage,
                   bins: Bins)
    requires bins.Valid() && block.binCount == bins.count
    requires forall c: nat, b: nat :: c < block.channelCount && b < bins.count ==>
               AnswersBin(block, plan, swapSpatial, planes, stored, bins, c, b)
    ensures Answers(block, plan, swapSpatial, planes, stored, bins)
  {}

  // Whatever came of it, every complete block's bins are right and the blocks came in turn; and when it ran to the
  // end they cover the selection, every pixel of every channel read exactly once.
  method ComputeHistogram(bins: Bins, hint: nat, plan: PassPlan, planes: Planes, swapSpatial: bool, source: PixelSource,
                          workers: nat, partialBudget: nat, leastPixels: nat, goesOn: nat -> bool,
                          keepsGoing: nat -> bool, ghost stored: StoredImage)
    returns (outcome: Outcome, blocks: seq<HistogramBlock>, ghost fs: seq<SlabFootprint>, ghost calls: seq<Call>)
    requires Given(plan, planes, source, stored, workers)
    ensures outcome == BadBins <==> bins.count == 0 || bins.count > C.MAX_HISTOGRAM_BINS
    ensures outcome == BadRange <==> 0 < bins.count <= C.MAX_HISTOGRAM_BINS && !(bins.lower < bins.upper)
    ensures outcome.BadBins? || outcome.BadRange? ==> blocks == []
    ensures forall i :: 0 <= i < |blocks| ==>
              && bins.Valid()
              && (blocks[i].complete ==>
                    Answers(blocks[i], plan, swapSpatial, planes, stored, bins) && blocks[i].completeness == 1.0)
              && (!blocks[i].complete ==> 0.0 < blocks[i].completeness < 1.0)
    ensures InTurn(Stretches(blocks))
    ensures outcome.Complete? ==> Reached(Stretches(blocks)) == plan.count
    ensures outcome.Complete? ==> forall i: nat, j: nat, c: nat ::
              VisitsOf(calls, fs, 1, i, j, c) == if OnPlane(plan, i, j) && c < plan.count then 1 else 0
  {
    hide *;
    NoneInTurn();
    blocks, fs, calls := [], [], [];
    if bins.count == 0 || bins.count > C.MAX_HISTOGRAM_BINS {
      return BadBins, blocks, fs, calls;
    }
    if !(bins.lower < bins.upper) {
      return BadRange, blocks, fs, calls;
    }
    GivenMeans(plan, planes, source, stored, workers);
    var bands := Bands(plan);
    fs := bands;
    var split := SplitOf(workers, partialBudget, bins.count * 8, leastPixels);
    var job := Job(plan, bands, WalkPlanes(planes, swapSpatial), source, split, bins);
    ItIsAJob(job, planes, swapSpatial, stored);
    var planned := InBlocks(plan, bands, plan.layerChunks, bins.count * 8, hint);
    calls := planned;
    ghost var walks, w;
    outcome, blocks, walks, w := CarryOut(job, planned, goesOn, keepsGoing, stored);
    ghost var image := ImageOf(job.planes, stored);
    CarriedMeans(blocks, walks, bands, w, image, bins);
    forall i | 0 <= i < |blocks|
      ensures blocks[i].complete ==>
                Answers(blocks[i], plan, swapSpatial, planes, stored, bins) && blocks[i].completeness == 1.0
      ensures !blocks[i].complete ==> 0.0 < blocks[i].completeness < 1.0
    {
      TellsMeans(blocks[i], walks[i], bands, image, bins);
      if blocks[i].complete { CompleteAnswers(blocks[i], walks[i], plan, bands, swapSpatial, planes, stored, bins); }
    }
    if outcome.Complete? {
      NothingWalkedIs();
      forall i: nat, j: nat, c: nat
        ensures VisitsOf(calls, fs, 1, i, j, c) == if OnPlane(plan, i, j) && c < plan.count then 1 else 0
      {
        EachSampleOnce(NOTHING_WALKED, planned, plan, bands, i, j, c);
      }
    }
  }

  lemma NothingWalkedIs()
    ensures NOTHING_WALKED.begin == 0 && NOTHING_WALKED.visited == {} && NOTHING_WALKED.length == 0
  {}

  lemma NoneInTurn()
    ensures InTurn(Stretches([]))
  {}

  lemma CarriedMeans(blocks: seq<HistogramBlock>, walks: seq<Walked>, fs: seq<SlabFootprint>, w: Walked, image: Image,
                     bins: Bins)
    requires bins.Valid() && Carried(blocks, walks, fs, w, image, bins)
    ensures |walks| == |blocks| && forall i :: 0 <= i < |blocks| ==> Tells(blocks[i], walks[i], fs, image, bins)
    ensures InTurn(Stretches(blocks)) && Reached(Stretches(blocks)) == if w.finished then w.begin + w.length
              else w.begin
  {}

  lemma GivenMeans(plan: PassPlan, planes: Planes, source: PixelSource, stored: StoredImage, workers: nat)
    requires Given(plan, planes, source, stored, workers)
    ensures plan.Valid() && Bandable(plan) && plan.sample == 1 && planes.Valid() && ServesImage(source, stored)
    ensures workers >= 1
    ensures B.Max(1, plan.layerChunks) == B.Max(1, RowChunks(plan) * ColumnChunks(plan))
  {}

  lemma ItIsAJob(job: Job, planes: Planes, swapSpatial: bool, stored: StoredImage)
    requires job.plan.Valid() && job.plan.sample == 1 && planes.Valid() && job.planes == WalkPlanes(planes, swapSpatial)
    requires ServesImage(job.source, stored) && 0 < job.bins.count && job.bins.lower < job.bins.upper
    requires forall k :: 0 <= k < |job.fs| ==> WellBanded(job.fs[k], job.plan)
    requires forall i: nat, j: nat :: Takers(job.fs, job.plan.sample, i, j) == if OnPlane(job.plan, i, j) then 1 else 0
    ensures job.Valid(stored) && Occupying(job.fs) && Tiling(job.fs, job.plan) && job.bins.Valid()
  {
    hide Takers, ServesImage, PassPlan.Valid;
  }
}
