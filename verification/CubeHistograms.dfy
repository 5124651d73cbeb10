// The whole of a cube histogram: ComputeCubeHistogram, src/reduce/plane_histogram.cc. One pass over the
// planes asked for, every sample-th pixel of them, into the provisional histograms and the answer over them.

module CubeHistograms {
  import opened Wrappers
  import opened Values
  import opened Footprints
  import opened SlabReduction
  import opened SlabReads
  import opened TaskSplits
  import opened Passes
  import opened PlaneBands
  import opened PlaneReads
  import opened PlaneContents
  import opened PixelsBelow
  import opened Sharings
  import opened ProvisionalHistograms
  import opened WalkAxes
  import G = GrowingHistograms
  import P = PixelSelections
  import B = ChunkBlocks

  const MAX_HISTOGRAM_BINS: nat := 0x10_0000

  // ---- What has been read ----

  // What a walk has read of the first n channels, together.
  ghost function ReadOver(visited: set<(nat, nat)>, fs: seq<SlabFootprint>, image: Image, n: nat): Totals {
    if n == 0 then Nothing
    else ReadOver(visited, fs, image, n - 1).Plus(Over(PlaneRead(visited, fs, n - 1), image, n - 1))
  }

  lemma {:induction false} NothingOver(fs: seq<SlabFootprint>, image: Image, n: nat)
    ensures ReadOver({}, fs, image, n) == Nothing
  {
    hide PlaneRead, Over, Totals.Plus;
    if n > 0 {
      NothingOver(fs, image, n - 1);
      NothingOfThePlane(fs, n - 1);
      OverNone(image, n - 1);
      PlusLaws(Nothing, Nothing, Nothing);
    }
  }

  // One read adds its footprint, at each of its channels.
  lemma {:induction false} OneMoreReadOver(visited: set<(nat, nat)>, fs: seq<SlabFootprint>, plan: PassPlan, f: nat,
                                           begin: nat, end: nat, image: Image, n: nat)
    requires plan.sample > 0 && Tiling(fs, plan) && f < |fs| && begin <= end
    requires forall c :: begin <= c < end ==> (f, c) !in visited
    ensures ReadOver(visited + Channels(f, begin, end), fs, image, n)
         == ReadOver(visited, fs, image, n)
            .Plus(OverChannels(Footing(fs[f]), image, begin, ChannelsIn(begin, end, n)))
  {
    hide *;
    if n == 0 {
      NoneIn(begin, end, visited, fs, image, f);
    } else {
      OneMoreReadOver(visited, fs, plan, f, begin, end, image, n - 1);
      OneMoreFooting(visited, fs, plan, f, begin, end, n - 1);
      ReadOverStep(visited, fs, image, n);
      ReadOverStep(visited + Channels(f, begin, end), fs, image, n);
      var had, more := PlaneRead(visited, fs, n - 1), if begin <= n - 1 < end then Footing(fs[f]) else {};
      OverUnion(had, more, image, n - 1);
      OneMoreIn(begin, end, fs, image, f, n);
      Regroup(ReadOver(visited, fs, image, n - 1),
              OverChannels(Footing(fs[f]), image, begin, ChannelsIn(begin, end, n - 1)),
              Over(had, image, n - 1), Over(more, image, n - 1));
    }
  }

  // How many of the channels [begin, end) come before channel n.
  function ChannelsIn(begin: nat, end: nat, n: nat): nat
    requires begin <= end
  {
    if n <= begin then 0 else if n >= end then end - begin else n - begin
  }

  lemma NoneIn(begin: nat, end: nat, visited: set<(nat, nat)>, fs: seq<SlabFootprint>, image: Image, f: nat)
    requires begin <= end && f < |fs|
    ensures ReadOver(visited + Channels(f, begin, end), fs, image, 0) == Nothing == ReadOver(visited, fs, image, 0)
    ensures Nothing.Plus(OverChannels(Footing(fs[f]), image, begin, ChannelsIn(begin, end, 0))) == Nothing
  {
    hide PlaneRead, Over, Totals.Plus, Footing, Channels;
    PlusLaws(Nothing, Nothing, Nothing);
  }

  lemma ReadOverStep(visited: set<(nat, nat)>, fs: seq<SlabFootprint>, image: Image, n: nat)
    requires n > 0
    ensures ReadOver(visited, fs, image, n)
         == ReadOver(visited, fs, image, n - 1).Plus(Over(PlaneRead(visited, fs, n - 1), image, n - 1))
  {}

  lemma OneMoreIn(begin: nat, end: nat, fs: seq<SlabFootprint>, image: Image, f: nat, n: nat)
    requires begin <= end && n > 0 && f < |fs|
    ensures var more := if begin <= n - 1 < end then Footing(fs[f]) else {};
            OverChannels(Footing(fs[f]), image, begin, ChannelsIn(begin, end, n))
            == OverChannels(Footing(fs[f]), image, begin, ChannelsIn(begin, end, n - 1)).Plus(Over(more, image, n - 1))
  {
    hide Over, Footing, Totals.Plus;
    var s := Footing(fs[f]);
    if begin <= n - 1 < end {
      OneMoreChannelOver(s, image, begin, n - begin);
    } else {
      OverNone(image, n - 1);
      PlusLaws(OverChannels(s, image, begin, ChannelsIn(begin, end, n - 1)), Nothing, Nothing);
    }
  }

  // All of it read, it is the sample of every channel.
  lemma {:induction false} AllReadOver(visited: set<(nat, nat)>, fs: seq<SlabFootprint>, plan: PassPlan, image: Image,
                                       n: nat)
    requires plan.sample > 0 && Tiling(fs, plan)
    requires forall f: nat, c: nat :: f < |fs| && c < n ==> (f, c) in visited
    ensures ReadOver(visited, fs, image, n)
         == OverChannels(Sampled(plan.uLength, plan.vLength, plan.sample), image, 0, n)
  {
    hide PlaneRead, Sampled, Over, Tiling;
    if n > 0 {
      AllReadOver(visited, fs, plan, image, n - 1);
      PlaneIsRead(visited, fs, plan, n - 1);
    }
  }

  // ---- One read ----

  // What a cube histogram has fixed before it reads.
  datatype Cube = Cube(plan: PassPlan, fs: seq<SlabFootprint>, planes: Planes, source: PixelSource, split: TaskSplit,
                       spacing: real -> real)
  {
    ghost predicate Valid(stored: StoredImage) {
      && plan.Valid() && Tiling(fs, plan) && Occupying(fs) && planes.Valid() && ServesImage(source, stored)
      && split.most >= 1 && Spaced(spacing)
    }
  }

  // The accumulators hold what has been read.
  ghost predicate Taken(accumulators: seq<Accumulator>, cube: Cube, w: Walked, image: Image)
    reads accumulators, set i | 0 <= i < |accumulators| :: accumulators[i].growing
  {
    && AllValid(accumulators) && |accumulators| == cube.split.most
    && TallyAll(TakenBy(accumulators)) == ReadOver(w.visited, cube.fs, image, cube.plan.count)
    && TakenBelow(TakenBy(accumulators), cube, w, image)
  }

  // Below every value as much as was read below it.
  ghost predicate TakenBelow(takens: seq<seq<Double>>, cube: Cube, w: Walked, image: Image) {
    forall e: real ::
      TallyAll(SiftedAll(takens, e)) == ReadOver(w.visited, cube.fs, SiftedImage(image, e), cube.plan.count)
  }

  lemma CubeMeans(cube: Cube, stored: StoredImage)
    requires cube.Valid(stored)
    ensures cube.plan.Valid() && cube.plan.sample > 0 && Tiling(cube.fs, cube.plan) && cube.planes.Valid()
    ensures ServesImage(cube.source, stored) && cube.split.most >= 1 && Spaced(cube.spacing)
    ensures forall f: nat :: f < |cube.fs| ==> cube.fs[f].uStride > 0 && cube.fs[f].vStride > 0
  {
    forall f: nat | f < |cube.fs| ensures cube.fs[f].uStride > 0 && cube.fs[f].vStride > 0 {
      assert WellBanded(cube.fs[f], cube.plan);
    }
  }

  lemma TakenMeans(accumulators: seq<Accumulator>, cube: Cube, w: Walked, image: Image)
    requires Taken(accumulators, cube, w, image)
    ensures AllValid(accumulators) && |accumulators| == cube.split.most
    ensures TallyAll(TakenBy(accumulators)) == ReadOver(w.visited, cube.fs, image, cube.plan.count)
    ensures TakenBelow(TakenBy(accumulators), cube, w, image)
  {
    hide TakenBelow;
  }

  lemma IsTaken(accumulators: seq<Accumulator>, cube: Cube, w: Walked, image: Image)
    requires AllValid(accumulators) && |accumulators| == cube.split.most
    requires TallyAll(TakenBy(accumulators)) == ReadOver(w.visited, cube.fs, image, cube.plan.count)
    requires TakenBelow(TakenBy(accumulators), cube, w, image)
    ensures Taken(accumulators, cube, w, image)
  {
    hide TakenBelow;
  }

  // What a read's tasks take, below every value.
  lemma ReadBelow(before: seq<seq<Double>>, after: seq<seq<Double>>, cube: Cube, w: Walked, visit: Call, slab: Slab,
                  tasks: nat, image: Image)
    requires cube.plan.sample > 0 && Tiling(cube.fs, cube.plan) && visit.Visit? && visit.footprint < |cube.fs|
    requires cube.fs[visit.footprint].uStride > 0 && cube.fs[visit.footprint].vStride > 0
    requires visit.begin < visit.end && slab.channelCount == visit.end - visit.begin
    requires ChannelsIn(visit.begin, visit.end, cube.plan.count) == visit.end - visit.begin
    requires forall c :: visit.begin <= c < visit.end ==> (visit.footprint, c) !in w.visited
    requires After(w, visit, cube.plan, cube.fs).visited
          == w.visited + Channels(visit.footprint, visit.begin, visit.end)
    requires Showing(slab, cube.fs[visit.footprint], image, visit.begin)
    requires Readable(slab, RowsOf(slab, slab.channelCount)) && 0 < tasks <= |before| == |after|
    requires forall i :: 0 <= i < |before| ==>
               after[i] == before[i] + Share(slab, RowsOf(slab, slab.channelCount), tasks, i)
    requires TakenBelow(before, cube, w, image)
    ensures TakenBelow(after, cube, After(w, visit, cube.plan, cube.fs), image)
  {
    forall e: real
      ensures TallyAll(SiftedAll(after, e))
           == ReadOver(After(w, visit, cube.plan, cube.fs).visited, cube.fs, SiftedImage(image, e), cube.plan.count)
    {
      assert TallyAll(SiftedAll(before, e)) == ReadOver(w.visited, cube.fs, SiftedImage(image, e), cube.plan.count);
      hide *;
      ReadSifted(slab, cube.fs[visit.footprint], image, visit.begin, tasks, before, after, e);
      OneMoreReadOver(w.visited, cube.fs, cube.plan, visit.footprint, visit.begin, visit.end, SiftedImage(image, e),
                      cube.plan.count);
    }
  }

  lemma StillBelow(takens: seq<seq<Double>>, cube: Cube, w: Walked, after: Walked, image: Image)
    requires TakenBelow(takens, cube, w, image) && after.visited == w.visited
    ensures TakenBelow(takens, cube, after, image)
  {
    hide TallyAll, SiftedAll, ReadOver, SiftedImage;
  }

  lemma NothingBelow(takens: seq<seq<Double>>, cube: Cube, image: Image)
    requires forall i :: 0 <= i < |takens| ==> takens[i] == []
    ensures TakenBelow(takens, cube, Walked(0, cube.plan.count, 0, 0, {}, false), image)
  {
    hide ReadOver, SiftedImage;
    forall e: real
      ensures TallyAll(SiftedAll(takens, e)) == ReadOver({}, cube.fs, SiftedImage(image, e), cube.plan.count)
    {
      NothingOver(cube.fs, SiftedImage(image, e), cube.plan.count);
      NoneTaken(SiftedAll(takens, e));
    }
  }

  lemma VisitIs(w: Walked, visit: Call, plan: PassPlan, fs: seq<SlabFootprint>)
    requires visit.Visit? && Allowed(w, visit, plan, fs) && w.begin == 0 && w.length == plan.count
    ensures visit.footprint < |fs| && visit.begin < visit.end <= plan.count
    ensures forall c :: visit.begin <= c < visit.end ==> (visit.footprint, c) !in w.visited
    ensures After(w, visit, plan, fs).visited == w.visited + Channels(visit.footprint, visit.begin, visit.end)
    ensures ChannelsIn(visit.begin, visit.end, plan.count) == visit.end - visit.begin
  {
    hide PassPlan.Aligned, PassPlan.ChunksTouched;
  }

  lemma ItShows(slab: Slab, f: SlabFootprint, image: Image, z: nat)
    requires SlabShows(slab, f, image, z) && slab.uCount == f.uCount > 0 && slab.vCount == f.vCount > 0
    ensures Showing(slab, f, image, z)
  {}

  lemma TasksOf(split: TaskSplit, unitPixels: nat, units: nat)
    requires split.most >= 1 && units > 0
    ensures 0 < split.Tasks(unitPixels, units) <= split.most
  {}

  lemma SomeRows(slab: Slab)
    requires slab.channelCount > 0 && slab.vCount > 0
    ensures RowsOf(slab, slab.channelCount) == slab.channelCount * slab.vCount > 0
  {
    B.MulMono(1, slab.channelCount, slab.vCount);
  }

  method CarryVisit(cube: Cube, visit: Call, accumulators: seq<Accumulator>, ghost w: Walked, ghost stored: StoredImage)
    returns (read: bool)
    requires cube.Valid(stored) && visit.Visit? && Allowed(w, visit, cube.plan, cube.fs)
    requires w.begin == 0 && w.length == cube.plan.count
    requires Taken(accumulators, cube, w, ImageOf(cube.planes, stored))
    modifies set i | 0 <= i < |accumulators| :: accumulators[i]
    modifies set i | 0 <= i < |accumulators| :: accumulators[i].growing
    ensures forall i: nat :: i < |accumulators| ==> accumulators[i].growing == old(accumulators[i].growing)
    ensures read ==> Taken(accumulators, cube, After(w, visit, cube.plan, cube.fs), ImageOf(cube.planes, stored))
  {
    hide *;
    ghost var image := ImageOf(cube.planes, stored);
    CubeMeans(cube, stored);
    VisitIs(w, visit, cube.plan, cube.fs);
    TakenMeans(accumulators, cube, w, image);
    var f := cube.fs[visit.footprint];
    var slab := ReadSlab(cube.source, cube.planes, f, visit.begin, visit.end - visit.begin, visit.first, stored);
    if slab.None? {
      return false;
    }
    ItShows(slab.value, f, image, visit.begin);
    ShowingIsWhole(slab.value, f, image, visit.begin);
    ReadHolds(slab.value, f, image, visit.begin, slab.value.channelCount);
    SomeRows(slab.value);
    var rows := RowsOf(slab.value, slab.value.channelCount);
    TasksOf(cube.split, slab.value.uCount, rows);
    var tasks := cube.split.Tasks(slab.value.uCount, rows);
    ghost var before := TakenBy(accumulators);
    TakenAre(accumulators);
    AddSlab(accumulators, slab.value, rows, tasks, Upto(tasks), cube.spacing);
    TakenAre(accumulators);
    ReadBelow(before, TakenBy(accumulators), cube, w, visit, slab.value, tasks, image);
    OneMoreReadOver(w.visited, cube.fs, cube.plan, visit.footprint, visit.begin, visit.end, image, cube.plan.count);
    IsTaken(accumulators, cube, After(w, visit, cube.plan, cube.fs), image);
    read := true;
  }

  // ---- Telling how far along it is ----

  // What a caller is told between reads: how far along, and the answer so far if it asks for it.
  datatype Snapshot = Snapshot(done: nat, total: nat, totals: CubeTotals, counts: seq<nat>)
  {
    function Fraction(): real
      requires total > 0
    {
      done as real / total as real
    }
  }

  // How many pixels below a value a walk has read of the first n channels.
  ghost function ReadBelowIn(visited: set<(nat, nat)>, fs: seq<SlabFootprint>, image: Image, n: nat, e: real): nat {
    if n == 0 then 0
    else ReadBelowIn(visited, fs, image, n - 1, e) + |BelowIn(PlaneRead(visited, fs, n - 1), image, n - 1, e)|
  }

  lemma {:induction false} ReadSiftedCounts(visited: set<(nat, nat)>, fs: seq<SlabFootprint>, image: Image, n: nat,
                                            e: real)
    ensures ReadOver(visited, fs, SiftedImage(image, e), n).good == ReadBelowIn(visited, fs, image, n, e)
  {
    hide PlaneRead, Over, BelowIn, SiftedImage;
    if n > 0 {
      ReadSiftedCounts(visited, fs, image, n - 1, e);
      OverSifted(PlaneRead(visited, fs, n - 1), image, n - 1, e);
    }
  }

  // The histograms hold the values that had been read by some moment: as many below any value.
  ghost predicate HoldsRead(sharing: Sharing, moment: Walked, cube: Cube, image: Image) {
    forall e: real ::
      BelowAll(ValuesOf(sharing.provisionals), e)
      == ReadBelowIn(moment.visited, cube.fs, image, cube.plan.count, e)
  }

  lemma SharingHolds(sharing: Sharing, takens: seq<seq<Double>>, cube: Cube, w: Walked, image: Image)
    requires TakenBelow(takens, cube, w, image) && |sharing.provisionals| == |takens|
    requires forall i :: 0 <= i < |takens| ==> sharing.provisionals[i].added == Finites(takens[i])
    ensures HoldsRead(sharing, w, cube, image)
  {
    hide ReadOver, ReadBelowIn, SiftedImage, TallyAll, Finites;
    forall e: real
      ensures BelowAll(ValuesOf(sharing.provisionals), e)
           == ReadBelowIn(w.visited, cube.fs, image, cube.plan.count, e)
    {
      assert TallyAll(SiftedAll(takens, e)) == ReadOver(w.visited, cube.fs, SiftedImage(image, e), cube.plan.count);
      AllSiftedCounts(takens, ValuesOf(sharing.provisionals), e);
      ReadSiftedCounts(w.visited, cube.fs, image, cube.plan.count, e);
    }
  }

  // Of one moment: the answer over exactly what had been read by then, short of all of it.
  ghost predicate Tells(snapshot: Snapshot, moment: Walked, sharing: Sharing, cube: Cube, bins: nat, image: Image) {
    && 0 < snapshot.done < snapshot.total
    && AnswersFor(snapshot.totals, ReadOver(moment.visited, cube.fs, image, cube.plan.count))
    && |snapshot.counts| == bins && G.Sum(snapshot.counts) == snapshot.totals.numPixels
    && SharesOut(snapshot.counts, snapshot.totals, sharing) && HoldsRead(sharing, moment, cube, image)
  }

  // Further along every time, and never at the end.
  ghost predicate AllTell(snapshots: seq<Snapshot>, moments: seq<Walked>, sharings: seq<Sharing>, cube: Cube, bins: nat,
                          image: Image) {
    && |moments| == |snapshots| == |sharings|
    && (forall i :: 0 <= i < |snapshots| ==> Tells(snapshots[i], moments[i], sharings[i], cube, bins, image))
    && forall i, j :: 0 <= i < j < |snapshots| ==>
         snapshots[i].done < snapshots[j].done && snapshots[i].total == snapshots[j].total
  }

  ghost predicate Last(snapshots: seq<Snapshot>, w: Walked, total: nat) {
    snapshots != [] ==> snapshots[|snapshots| - 1].done <= w.reported && snapshots[|snapshots| - 1].total == total
  }

  lemma OneMoreTells(snapshots: seq<Snapshot>, moments: seq<Walked>, sharings: seq<Sharing>, w: Walked, cube: Cube,
                     bins: nat, image: Image, snapshot: Snapshot, sharing: Sharing, total: nat)
    requires AllTell(snapshots, moments, sharings, cube, bins, image) && Last(snapshots, w, total)
    requires Tells(snapshot, w, sharing, cube, bins, image) && w.reported < snapshot.done && snapshot.total == total
    ensures AllTell(snapshots + [snapshot], moments + [w], sharings + [sharing], cube, bins, image)
  {
    hide Tells;
    forall i | 0 <= i < |snapshots| ensures snapshots[i].done < snapshot.done && snapshots[i].total == total {
      if i < |snapshots| - 1 { assert snapshots[i].done < snapshots[|snapshots| - 1].done; }
    }
  }

  lemma NoneTold(cube: Cube, bins: nat, image: Image, w: Walked, total: nat)
    ensures AllTell([], [], [], cube, bins, image) && Last([], w, total)
  {}

  // What the calls of one run keep: it begins with the selection and is as long.
  lemma RunStep(w: Walked, call: Call, plan: PassPlan, fs: seq<SlabFootprint>, snapshots: seq<Snapshot>, total: nat)
    requires Allowed(w, call, plan, fs) && !call.Reset? && w.begin == 0 && w.length == plan.count
    requires Last(snapshots, w, total)
    ensures var after := After(w, call, plan, fs);
            after.begin == 0 && after.length == plan.count && Last(snapshots, after, total)
    ensures call.HandOver? ==> After(w, call, plan, fs).visited == w.visited
  {
    hide PassPlan.Aligned, PassPlan.ChunksTouched, PassPlan.ChunksCovering, LayerOf, AllVisited;
  }

  lemma ToldNow(snapshots: seq<Snapshot>, snapshot: Snapshot, w: Walked, total: nat)
    requires snapshot.done == w.reported && snapshot.total == total
    ensures Last(snapshots + [snapshot], w, total)
  {}

  lemma ItTells(snapshot: Snapshot, w: Walked, sharing: Sharing, cube: Cube, bins: nat, image: Image)
    requires 0 < snapshot.done < snapshot.total && |snapshot.counts| == bins
    requires AnswersFor(snapshot.totals, ReadOver(w.visited, cube.fs, image, cube.plan.count))
    requires G.Sum(snapshot.counts) == snapshot.totals.numPixels
    requires SharesOut(snapshot.counts, snapshot.totals, sharing) && HoldsRead(sharing, w, cube, image)
    ensures Tells(snapshot, w, sharing, cube, bins, image)
  {}

  // ---- The histogram ----

  datatype Outcome = Counted(totals: CubeTotals, counts: seq<nat>) | BadBins | NoSample | Failed | Cancelled

  method NewAccumulators(n: nat, bins: nat) returns (accumulators: seq<Accumulator>)
    requires bins > 0 && bins % 2 == 0
    ensures |accumulators| == n && AllValid(accumulators) && TallyAll(TakenBy(accumulators)) == Nothing
    ensures forall i :: 0 <= i < n ==> TakenBy(accumulators)[i] == []
    ensures forall i :: 0 <= i < n ==> fresh(accumulators[i]) && fresh(accumulators[i].growing)
  {
    hide G.GrowingHistogram.Valid, Totalled, Tally, Finites;
    accumulators := [];
    for i := 0 to n
      invariant |accumulators| == i && AllValid(accumulators)
      invariant forall j :: 0 <= j < i ==>
                  fresh(accumulators[j]) && fresh(accumulators[j].growing) && accumulators[j].taken == []
    {
      var accumulator := new Accumulator(bins);
      accumulators := accumulators + [accumulator];
    }
    NoneTaken(TakenBy(accumulators));
  }

  lemma {:induction false} NoneTaken(takens: seq<seq<Double>>)
    requires forall i :: 0 <= i < |takens| ==> takens[i] == []
    ensures TallyAll(takens) == Nothing
    decreases |takens|
  {
    hide Tally, Totals.Plus;
    if takens != [] {
      NoneTaken(takens[..|takens| - 1]);
      NothingTallied();
      PlusLaws(Nothing, Nothing, Nothing);
    }
  }

  // The calls of one run, carried out until one fails or somebody says no.
  method CarryOut(cube: Cube, calls: seq<Call>, bins: nat, provisional: nat, goesOn: nat -> bool,
                  keepsGoing: nat -> bool, ghost stored: StoredImage)
    returns (outcome: Outcome, snapshots: seq<Snapshot>, ghost moments: seq<Walked>, ghost sharings: seq<Sharing>,
             ghost sharing: Sharing)
    requires cube.Valid(stored) && bins > 0 && provisional > 0 && provisional % 2 == 0
    requires Follows(Walked(0, cube.plan.count, 0, 0, {}, false), calls, cube.plan, cube.fs)
    requires Underway(calls, 0)
    requires AllVisited(AfterAll(Walked(0, cube.plan.count, 0, 0, {}, false), calls, cube.plan, cube.fs), |cube.fs|)
    ensures outcome.Counted? || outcome.Failed? || outcome.Cancelled?
    ensures AllTell(snapshots, moments, sharings, cube, bins, ImageOf(cube.planes, stored))
    ensures outcome.Counted? ==>
              && cube.plan.sample > 0
              && AnswersFor(outcome.totals,
                            OverChannels(Sampled(cube.plan.uLength, cube.plan.vLength, cube.plan.sample),
                                         ImageOf(cube.planes, stored), 0, cube.plan.count))
              && |outcome.counts| == bins && G.Sum(outcome.counts) == outcome.totals.numPixels
              && SharesOut(outcome.counts, outcome.totals, sharing)
              && HoldsPixels(sharing, Sampled(cube.plan.uLength, cube.plan.vLength, cube.plan.sample),
                             ImageOf(cube.planes, stored), cube.plan.count)
  {
    hide *;
    ghost var image, start := ImageOf(cube.planes, stored), Walked(0, cube.plan.count, 0, 0, {}, false);
    ghost var w, total := start, cube.plan.ChunksCovering(B.Max(1, LayerOf(cube.fs)), 0, cube.plan.count);
    snapshots, moments, sharings, sharing := [], [], [], NO_SHARING;
    CubeMeans(cube, stored);
    NoneTold(cube, bins, image, w, total);
    NothingOver(cube.fs, image, cube.plan.count);
    var accumulators := NewAccumulators(cube.split.most, provisional);
    TakenAre(accumulators);
    NothingBelow(TakenBy(accumulators), cube, image);
    IsTaken(accumulators, cube, w, image);
    NoneAfter(start, calls, cube.plan, cube.fs);
    for k := 0 to |calls|
      invariant w == AfterAll(start, calls[..k], cube.plan, cube.fs) && w.begin == 0 && w.length == cube.plan.count
      invariant forall i :: 0 <= i < |accumulators| ==> fresh(accumulators[i]) && fresh(accumulators[i].growing)
      invariant Taken(accumulators, cube, w, image)
      invariant AllTell(snapshots, moments, sharings, cube, bins, image) && Last(snapshots, w, total)
    {
      var call := calls[k];
      NextCall(start, calls, cube.plan, cube.fs, k);
      IsUnderway(calls, k);
      RunStep(w, call, cube.plan, cube.fs, snapshots, total);
      ghost var after := After(w, call, cube.plan, cube.fs);
      if call.Visit? {
        if !goesOn(k) {
          return Cancelled, snapshots, moments, sharings, sharing;
        }
        var read := CarryVisit(cube, call, accumulators, w, stored);
        if !read {
          return Failed, snapshots, moments, sharings, sharing;
        }
      } else {
        TakenMeans(accumulators, cube, w, image);
        ReportIs(w, call, cube.plan, cube.fs);
        var totals, counts, parts, splits := Collect(accumulators, bins);
        var snapshot := Snapshot(call.done, call.total, totals, counts);
        ghost var told := SharingOf(accumulators, counts, totals, parts, splits);
        TakenAre(accumulators);
        SharingHolds(told, TakenBy(accumulators), cube, w, image);
        ItTells(snapshot, w, told, cube, bins, image);
        OneMoreTells(snapshots, moments, sharings, w, cube, bins, image, snapshot, told, total);
        ToldNow(snapshots, snapshot, after, total);
        snapshots, moments, sharings := snapshots + [snapshot], moments + [w], sharings + [told];
        StillBelow(TakenBy(accumulators), cube, w, after, image);
        IsTaken(accumulators, cube, after, image);
        if !keepsGoing(|snapshots|) {
          return Cancelled, snapshots, moments, sharings, sharing;
        }
      }
      w := after;
    }
    assert calls[..|calls|] == calls;
    TakenMeans(accumulators, cube, w, image);
    EveryChannelRead(w, cube.plan, cube.fs);
    AllReadOver(w.visited, cube.fs, cube.plan, image, cube.plan.count);
    var totals, counts, parts, splits := Collect(accumulators, bins);
    sharing := SharingOf(accumulators, counts, totals, parts, splits);
    TakenAre(accumulators);
    SharingHolds(sharing, TakenBy(accumulators), cube, w, image);
    AllHeld(sharing, w, cube, image);
    outcome := Counted(totals, counts);
  }

  // The histograms hold the values of some channels over a set of pixels: as many below any value.
  ghost predicate HoldsPixels(sharing: Sharing, s: set<At>, image: Image, n: nat) {
    forall e: real :: BelowAll(ValuesOf(sharing.provisionals), e) == BelowChannels(s, image, 0, n, e)
  }

  lemma AllHeld(sharing: Sharing, w: Walked, cube: Cube, image: Image)
    requires cube.plan.sample > 0 && Tiling(cube.fs, cube.plan) && HoldsRead(sharing, w, cube, image)
    requires forall f: nat, c: nat :: f < |cube.fs| && c < cube.plan.count ==> (f, c) in w.visited
    ensures HoldsPixels(sharing, Sampled(cube.plan.uLength, cube.plan.vLength, cube.plan.sample), image,
                        cube.plan.count)
  {
    var sampled := Sampled(cube.plan.uLength, cube.plan.vLength, cube.plan.sample);
    hide ReadOver, ReadBelowIn, SiftedImage, OverChannels, BelowChannels, Sampled, Tiling, BelowAll;
    forall e: real
      ensures BelowAll(ValuesOf(sharing.provisionals), e) == BelowChannels(sampled, image, 0, cube.plan.count, e)
    {
      assert BelowAll(ValuesOf(sharing.provisionals), e)
          == ReadBelowIn(w.visited, cube.fs, image, cube.plan.count, e);
      ReadSiftedCounts(w.visited, cube.fs, image, cube.plan.count, e);
      AllReadOver(w.visited, cube.fs, cube.plan, SiftedImage(image, e), cube.plan.count);
      ChannelsSifted(sampled, image, 0, cube.plan.count, e);
    }
  }

  lemma IsUnderway(calls: seq<Call>, k: nat)
    requires Underway(calls, 0) && k < |calls|
    ensures calls[k].Visit? || (calls[k].HandOver? && !calls[k].complete)
  {}

  lemma NoneAfter(w: Walked, calls: seq<Call>, plan: PassPlan, fs: seq<SlabFootprint>)
    ensures AfterAll(w, calls[..0], plan, fs) == w
  {}

  lemma NextCall(w: Walked, calls: seq<Call>, plan: PassPlan, fs: seq<SlabFootprint>, k: nat)
    requires Follows(w, calls, plan, fs) && k < |calls|
    ensures Allowed(AfterAll(w, calls[..k], plan, fs), calls[k], plan, fs)
    ensures AfterAll(w, calls[..k + 1], plan, fs) == After(AfterAll(w, calls[..k], plan, fs), calls[k], plan, fs)
  {
    assert calls[..k + 1][..k] == calls[..k];
  }

  lemma EveryChannelRead(w: Walked, plan: PassPlan, fs: seq<SlabFootprint>)
    requires AllVisited(w, |fs|) && w.begin == 0 && w.length == plan.count
    ensures forall f: nat, c: nat :: f < |fs| && c < plan.count ==> (f, c) in w.visited
  {}

  // ---- From the request ----

  // What a cube histogram is given beside its request: the plan of its pass over the checked planes.
  // `planes` walks along the image's own x and y.
  ghost predicate Given(plan: PassPlan, planes: Planes, source: PixelSource, stored: StoredImage, workers: nat,
                        spacing: real -> real)
  {
    && plan.Valid() && Bandable(plan) && planes.Valid() && ServesImage(source, stored) && workers >= 1
    && Spaced(spacing)
    && planes.channels == P.Range(plan.start, plan.count, plan.stride)
  }

  lemma {:induction false} ChannelsSwapped(s: set<At>, a: Image, b: Image, first: nat, n: nat)
    requires Transposed(a, b)
    ensures OverChannels(SwapAll(s), b, first, n) == OverChannels(s, a, first, n)
  {
    hide Over, Totals.Plus, SwapAll, Transposed;
    if n > 0 {
      ChannelsSwapped(s, a, b, first, n - 1);
      OverSwapped(s, a, b, first + n - 1);
    }
  }

  lemma SampledSwapped(width: nat, height: nat, sample: nat)
    requires sample > 0
    ensures SwapAll(Sampled(width, height, sample)) == Sampled(height, width, sample)
  {
    SampledIs(width, height, sample);
    SampledIs(height, width, sample);
    hide Sampled;
    forall p: At ensures p in SwapAll(Sampled(width, height, sample)) <==> p in Sampled(height, width, sample) {
      assert p == Swapped(At(p.v, p.u));
    }
  }

  // In the image's own axes, whichever way the walk runs.
  lemma InItsOwnAxes(plan: PassPlan, planes: Planes, swapSpatial: bool, stored: StoredImage)
    requires plan.sample > 0 && planes.Valid()
    ensures OverChannels(Sampled(plan.uLength, plan.vLength, plan.sample),
                         ImageOf(WalkPlanes(planes, swapSpatial), stored), 0,
                         plan.count)
         == OverChannels(if swapSpatial then Sampled(plan.vLength, plan.uLength, plan.sample)
                         else Sampled(plan.uLength, plan.vLength, plan.sample), ImageOf(planes, stored), 0, plan.count)
  {
    hide OverChannels, Sampled, ImageOf, Transposed;
    if swapSpatial {
      ImagesTransposed(planes, stored);
      SampledSwapped(plan.uLength, plan.vLength, plan.sample);
      ChannelsSwapped(Sampled(plan.uLength, plan.vLength, plan.sample), ImageOf(WalkPlanes(planes, true), stored),
                      ImageOf(planes, stored), 0, plan.count);
    }
  }

  // The same of what lies below a value.
  lemma BelowInItsOwnAxes(sharing: Sharing, plan: PassPlan, planes: Planes, swapSpatial: bool, stored: StoredImage)
    requires plan.sample > 0 && planes.Valid()
    requires HoldsPixels(sharing, Sampled(plan.uLength, plan.vLength, plan.sample),
                         ImageOf(WalkPlanes(planes, swapSpatial), stored), plan.count)
    ensures HoldsPixels(sharing, Asked(plan, swapSpatial), ImageOf(planes, stored), plan.count)
  {
    hide OverChannels, BelowChannels, Sampled, ImageOf, Transposed, SiftedImage, BelowAll;
    if swapSpatial {
      var walked, a, b := Sampled(plan.uLength, plan.vLength, plan.sample),
        ImageOf(WalkPlanes(planes, true), stored), ImageOf(planes, stored);
      ImagesTransposed(planes, stored);
      SampledSwapped(plan.uLength, plan.vLength, plan.sample);
      forall e: real ensures BelowChannels(SwapAll(walked), b, 0, plan.count, e)
          == BelowChannels(walked, a, 0, plan.count, e) {
        SiftedTransposed(a, b, e);
        ChannelsSwapped(walked, SiftedImage(a, e), SiftedImage(b, e), 0, plan.count);
        ChannelsSifted(walked, a, 0, plan.count, e);
        ChannelsSifted(SwapAll(walked), b, 0, plan.count, e);
      }
    }
  }

  lemma SiftedTransposed(a: Image, b: Image, e: real)
    requires Transposed(a, b)
    ensures Transposed(SiftedImage(a, e), SiftedImage(b, e))
  {
    hide Sieve;
    forall u: nat, v: nat, c: nat ensures SiftedImage(a, e)(u, v, c) == SiftedImage(b, e)(v, u, c) {
      assert a(u, v, c) == b(v, u, c);
    }
  }

  // At each inner edge of the answer, what it has below and the pixels of every channel that are below it differ
  // by no more than the provisional bins that lie across the edge hold.
  ghost predicate NearTheEdges(counts: seq<nat>, totals: CubeTotals, sharing: Sharing, s: set<At>, image: Image, n: nat)
  {
    totals.numPixels > 0 && RealOr(totals.min) < RealOr(totals.max) ==>
      forall k: nat :: 0 < k < |counts| ==>
        var e := EdgeOf(totals, |counts|, k);
        Near(G.Sum(counts[..k]), BelowChannels(s, image, 0, n, e), StraddlingAll(sharing.provisionals, e))
  }

  lemma ItIsNearTheEdges(counts: seq<nat>, totals: CubeTotals, sharing: Sharing, s: set<At>, image: Image, n: nat)
    requires SharesOut(counts, totals, sharing) && HoldsPixels(sharing, s, image, n)
    ensures NearTheEdges(counts, totals, sharing, s, image, n)
  {
    if totals.numPixels > 0 && RealOr(totals.min) < RealOr(totals.max) {
      forall k: nat | 0 < k < |counts|
        ensures var e := EdgeOf(totals, |counts|, k);
                Near(G.Sum(counts[..k]), BelowChannels(s, image, 0, n, e), StraddlingAll(sharing.provisionals, e))
      {
        NearAtEdges(counts, totals, sharing, k);
        var e := EdgeOf(totals, |counts|, k);
        assert BelowAll(ValuesOf(sharing.provisionals), e) == BelowChannels(s, image, 0, n, e);
      }
    }
  }

  // The pixels of the request: every sample-th of each plane along the image's x and y.
  ghost function Asked(plan: PassPlan, swapSpatial: bool): set<At>
    requires plan.sample > 0
  {
    if swapSpatial then Sampled(plan.vLength, plan.uLength, plan.sample)
        else Sampled(plan.uLength, plan.vLength, plan.sample)
  }

  // Every pixel asked for, of every channel, counted once: the totals are exactly theirs; the provisional
  // histograms hold exactly their finite values, bin by bin; and the answer is those bins shared out, so at each
  // of its edges it is out by no more than the provisional bins across that edge.
  method ComputeCubeHistogram(bins: nat, provisionalBins: nat, sample: nat, plan: PassPlan, planes: Planes,
                              swapSpatial: bool, source: PixelSource, workers: nat, cacheBytes: nat, leastPixels: nat,
                              spacing: real -> real, goesOn: nat -> bool, keepsGoing: nat -> bool,
                              ghost stored: StoredImage)
    returns (outcome: Outcome, snapshots: seq<Snapshot>, ghost moments: seq<Walked>, ghost cube: Cube,
             ghost sharings: seq<Sharing>, ghost sharing: Sharing)
    requires sample > 0 ==> Given(plan, planes, source, stored, workers, spacing) && plan.sample == sample
    ensures outcome == BadBins <==> bins == 0 || bins > MAX_HISTOGRAM_BINS
    ensures outcome == NoSample <==> 0 < bins <= MAX_HISTOGRAM_BINS && sample == 0
    ensures outcome.Counted? ==>
              && plan.sample > 0
              && AnswersFor(outcome.totals,
                            OverChannels(Asked(plan, swapSpatial), ImageOf(planes, stored), 0, plan.count))
              && |outcome.counts| == bins && G.Sum(outcome.counts) == outcome.totals.numPixels
              && SharesOut(outcome.counts, outcome.totals, sharing)
              && HoldsPixels(sharing, Asked(plan, swapSpatial), ImageOf(planes, stored), plan.count)
              && NearTheEdges(outcome.counts, outcome.totals, sharing, Asked(plan, swapSpatial),
                              ImageOf(planes, stored), plan.count)
    ensures outcome.Counted? || outcome.Failed? || outcome.Cancelled? ==>
              AllTell(snapshots, moments, sharings, cube, bins, ImageOf(WalkPlanes(planes, swapSpatial), stored))
              && cube.plan == plan && Tiling(cube.fs, plan)
  {
    hide *;
    snapshots, moments, sharings, sharing := [], [], [], NO_SHARING;
    cube := Cube(plan, [], planes, source, TaskSplit(1, 1), spacing);
    if bins == 0 || bins > MAX_HISTOGRAM_BINS {
      return BadBins, snapshots, moments, cube, sharings, sharing;
    }
    if sample == 0 {
      return NoSample, snapshots, moments, cube, sharings, sharing;
    }
    GivenMeans(plan, planes, source, stored, workers, spacing);
    var provisional := Resolution(bins, provisionalBins, MAX_HISTOGRAM_BINS);
    var split := SplitOf(workers, cacheBytes, provisional * 8, leastPixels);
    var fs := Bands(plan);
    var job := Cube(plan, fs, WalkPlanes(planes, swapSpatial), source, split, spacing);
    cube := job;
    ItIsACube(job, planes, swapSpatial, stored);
    var calls := Whole(plan, fs);
    outcome, snapshots, moments, sharings, sharing :=
      CarryOut(job, calls, bins, provisional, goesOn, keepsGoing, stored);
    InItsOwnAxes(plan, planes, swapSpatial, stored);
    AskedIs(plan, swapSpatial);
    if outcome.Counted? {
      BelowInItsOwnAxes(sharing, plan, planes, swapSpatial, stored);
      ItIsNearTheEdges(outcome.counts, outcome.totals, sharing, Asked(plan, swapSpatial), ImageOf(planes, stored),
                       plan.count);
    }
  }

  lemma GivenMeans(plan: PassPlan, planes: Planes, source: PixelSource, stored: StoredImage, workers: nat,
                   spacing: real -> real)
    requires Given(plan, planes, source, stored, workers, spacing)
    ensures plan.Valid() && Bandable(plan) && planes.Valid() && workers >= 1 && plan.sample > 0
    ensures ServesImage(source, stored) && Spaced(spacing)
  {}

  lemma AskedIs(plan: PassPlan, swapSpatial: bool)
    requires plan.sample > 0
    ensures Asked(plan, swapSpatial)
         == if swapSpatial then Sampled(plan.vLength, plan.uLength, plan.sample)
            else Sampled(plan.uLength, plan.vLength, plan.sample)
  {}

  lemma ItIsACube(cube: Cube, planes: Planes, swapSpatial: bool, stored: StoredImage)
    requires cube.plan.Valid() && planes.Valid() && cube.planes == WalkPlanes(planes, swapSpatial)
    requires ServesImage(cube.source, stored) && cube.split.most >= 1 && Spaced(cube.spacing)
    requires forall k :: 0 <= k < |cube.fs| ==> WellBanded(cube.fs[k], cube.plan)
    requires cube.plan.sample > 0
    requires forall i: nat, j: nat :: Takers(cube.fs, cube.plan.sample, i, j) == if OnPlane(cube.plan, i, j) then 1
              else 0
    ensures cube.Valid(stored) && Occupying(cube.fs) && Tiling(cube.fs, cube.plan)
  {
    hide Takers, ServesImage, Spaced, PassPlan.Valid;
  }
}
