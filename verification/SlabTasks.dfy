// One slab into a block's accumulator: accumulate_slab, src/reduce/spectral_reduce.cc. The slab's units
// are divided into tasks, each with a partial of its own; the tasks run in any order, and the partials
// are merged in task order.

module SlabTasks {
  import opened Values
  import opened Statistics
  import opened Slots
  import opened Regions
  import opened Footprints
  import opened SlabReduction
  import opened TaskSplits
  import O = Occupancies
  import G = CellScan
  import B = ChunkBlocks

  // The partials of a reduction: objects of its own, none of them twice.
  ghost predicate Apart(partials: seq<StatisticSlots>, accumulator: StatisticSlots) {
    && accumulator !in partials
    && forall i, j :: 0 <= i < j < |partials| ==> partials[i] != partials[j]
  }

  // What each pixel of a slab does to a block: every region gains its pixels of the footprint, at
  // each of the slab's channels.
  ghost predicate SlabAdded(before: seq<seq<Totals>>, after: seq<seq<Totals>>, regions: seq<PlacedRegion>,
                            f: OccupiedFootprint, at: nat, channels: nat, image: Image, z: nat) {
    && |before| == |after| == |regions|
    && (forall r :: 0 <= r < |before| ==> |after[r]| == |before[r]|)
    && forall r: nat, c: nat :: r < |regions| && c < |before[r]| ==>
         after[r][c] == if at <= c < at + channels
                        then before[r][c].Plus(Over(InFootprint(regions[r], f), image, z + (c - at)))
                        else before[r][c]
  }

  // ---- Each task's partial ----

  datatype Job = Job(o: O.Occupancy, f: OccupiedFootprint, slab: Slab, layout: StatisticLayout, tasks: nat, units: nat)

  // A task's units of the job.
  ghost function UnitsOf(job: Job, task: nat): RowRange {
    if job.tasks <= 1 then RowRange(0, job.units) else TaskRows(task, job.tasks, job.units)
  }

  // A task's partial: nothing yet, or all its units.
  ghost predicate PartialIs(partial: StatisticSlots, job: Job, task: nat, done: bool, image: Image, z: nat)
    requires CanCut(job.o, job.f)
    reads partial
  {
    CanCutMeans(job.o, job.f);
    && ForRegions(partial, job.layout, |job.o.regions|, job.slab.channelCount)
    && var units := UnitsOf(job, task);
       HoldsUnits(partial.contents, job.o.regions, job.f, job.o.grid, job.slab.channelCount, units.first,
                  if done then units.last else units.first, image, z)
  }

  ghost predicate PartialsAre(partials: seq<StatisticSlots>, job: Job, todo: set<nat>, image: Image, z: nat)
    requires CanCut(job.o, job.f) && job.tasks <= |partials|
    reads set i | 0 <= i < |partials| :: partials[i]
  {
    forall task: nat :: task < job.tasks ==> PartialIs(partials[task], job, task, task !in todo, image, z)
  }

  // ---- Merging them is the slab ----

  lemma UnitsJoin(r: PlacedRegion, f: OccupiedFootprint, g: G.Grid, c: nat, a: nat, b: nat, e: nat)
    requires g.chunkU > 0 && g.chunkV > 0 && f.cuBegin < f.cuEnd && f.cvBegin < f.cvEnd && a <= b <= e
    ensures UnitPixels(r, f, g, c, a, e) == UnitPixels(r, f, g, c, a, b) + UnitPixels(r, f, g, c, b, e)
    ensures UnitPixels(r, f, g, c, a, b) !! UnitPixels(r, f, g, c, b, e)
  {
    hide UnitOf, InFootprint;
  }

  // All the units of a slab take the region's pixels of the footprint.
  lemma AllUnits(r: PlacedRegion, f: OccupiedFootprint, o: O.Occupancy, chunksPerRead: nat, c: nat, channels: nat)
    requires CanCut(o, f) && WellCut(f, o, chunksPerRead) && O.Within(r, o.box) && c < channels
    ensures o.grid.chunkU > 0 && o.grid.chunkV > 0
    ensures UnitPixels(r, f, o.grid, c, 0, channels * Cells(f)) == InFootprint(r, f)
  {
    CanCutMeans(o, f);
    hide UnitOf, InFootprint, WellCut, Cells;
    forall p | p in InFootprint(r, f) ensures 0 <= UnitOf(f, o.grid, c, p.u, p.v) < channels * Cells(f) {
      assert p == At(p.u, p.v);
      InFootprintMeans(r, f, p.u, p.v);
      SelectedInBox(r, o.box, p.u, p.v);
      InBoxIsHeld(f, o, chunksPerRead, p.u, p.v);
      UnitInRange(f, o.grid, c, channels, p.u, p.v);
    }
  }

  lemma UnitInRange(f: OccupiedFootprint, g: G.Grid, c: nat, channels: nat, u: nat, v: nat)
    requires g.chunkU > 0 && g.chunkV > 0 && Holds(f, u / g.chunkU, v / g.chunkV) && c < channels
    ensures 0 <= UnitOf(f, g, c, u, v) < channels * Cells(f)
  {
    var row, column := v / g.chunkV - f.cvBegin, u / g.chunkU - f.cuBegin;
    var rows, columns := f.cvEnd - f.cvBegin, f.cuEnd - f.cuBegin;
    B.MulMono(row + 1, rows, columns);
    assert (row + 1) * columns == row * columns + columns;
    B.MulMono(c + 1, channels, Cells(f));
    assert (c + 1) * Cells(f) == c * Cells(f) + Cells(f);
  }

  // The totals the first k tasks hold between them.
  ghost predicate MergedSoFar(before: seq<seq<Totals>>, merged: seq<seq<Totals>>, job: Job, at: nat, last: nat,
                              image: Image, z: nat)
    requires CanCut(job.o, job.f)
  {
    CanCutMeans(job.o, job.f);
    && |before| == |merged| == |job.o.regions|
    && (forall r :: 0 <= r < |before| ==> |merged[r]| == |before[r]|)
    && forall r: nat, c: nat :: r < |job.o.regions| && c < |before[r]| ==>
         merged[r][c] == if at <= c < at + job.slab.channelCount
                         then before[r][c].Plus(Over(UnitPixels(job.o.regions[r], job.f, job.o.grid, c - at, 0, last),
                                                     image, z + (c - at)))
                         else before[r][c]
  }

  lemma NoneMergedYet(before: seq<seq<Totals>>, job: Job, at: nat, image: Image, z: nat)
    requires CanCut(job.o, job.f) && |before| == |job.o.regions|
    ensures MergedSoFar(before, before, job, at, 0, image, z)
  {
    CanCutMeans(job.o, job.f);
    forall r: nat, c: nat | r < |job.o.regions| && at <= c < |before[r]|
      ensures before[r][c].Plus(Over(UnitPixels(job.o.regions[r], job.f, job.o.grid, c - at, 0, 0), image,
                                     z + (c - at)))
           == before[r][c]
    {
      assert UnitPixels(job.o.regions[r], job.f, job.o.grid, c - at, 0, 0) == {};
      OverNone(image, z + (c - at));
      PlusLaws(before[r][c], Nothing, Nothing);
    }
    hide UnitPixels, Over, Totals.Plus;
  }

  lemma OneMoreTask(before: seq<seq<Totals>>, mid: seq<seq<Totals>>, part: seq<seq<Totals>>, job: Job, at: nat,
                    first: nat, last: nat, image: Image, z: nat)
    requires CanCut(job.o, job.f) && first <= last && MergedSoFar(before, mid, job, at, first, image, z)
    requires job.o.grid.chunkU > 0 && job.o.grid.chunkV > 0
    requires HoldsUnits(part, job.o.regions, job.f, job.o.grid, job.slab.channelCount, first, last, image, z)
    ensures MergedSoFar(before, Merged(mid, part, at), job, at, last, image, z)
  {
    hide UnitPixels, Over, Totals.Plus, Cells, CanCut;
    CanCutMeans(job.o, job.f);
    var merged := Merged(mid, part, at);
    forall r: nat, c: nat | r < |job.o.regions| && c < |before[r]|
      ensures at <= c < at + job.slab.channelCount ==>
                merged[r][c] == before[r][c].Plus(
                  Over(UnitPixels(job.o.regions[r], job.f, job.o.grid, c - at, 0, last), image, z + (c - at)))
    {
      if at <= c < at + job.slab.channelCount {
        UnitsJoinTotals(job.o.regions[r], job.f, job.o.grid, c - at, first, last, image, z + (c - at), before[r][c]);
      }
    }
  }

  lemma UnitsJoinTotals(r: PlacedRegion, f: OccupiedFootprint, g: G.Grid, c: nat, first: nat, last: nat, image: Image,
                        channel: nat, t: Totals)
    requires g.chunkU > 0 && g.chunkV > 0 && f.cuBegin < f.cuEnd && f.cvBegin < f.cvEnd && first <= last
    ensures t.Plus(Over(UnitPixels(r, f, g, c, 0, first), image, channel)).Plus(
              Over(UnitPixels(r, f, g, c, first, last), image, channel))
         == t.Plus(Over(UnitPixels(r, f, g, c, 0, last), image, channel))
  {
    hide UnitPixels, Over, Totals.Plus;
    var a, b := UnitPixels(r, f, g, c, 0, first), UnitPixels(r, f, g, c, first, last);
    UnitsJoin(r, f, g, c, 0, first, last);
    OverUnion(a, b, image, channel);
    PlusLaws(t, Over(a, image, channel), Over(b, image, channel));
  }

  // The partials, merged in task order.
  lemma {:induction false} TasksMerge(before: seq<seq<Totals>>, parts: seq<seq<seq<Totals>>>, job: Job, at: nat, k: nat,
                                      image: Image, z: nat)
    requires CanCut(job.o, job.f) && |before| == |job.o.regions| && 0 < job.tasks && k <= job.tasks == |parts|
    requires job.o.grid.chunkU > 0 && job.o.grid.chunkV > 0
    requires forall task: nat :: task < job.tasks ==>
               HoldsUnits(parts[task], job.o.regions, job.f, job.o.grid, job.slab.channelCount,
                          UnitsOf(job, task).first,
                          UnitsOf(job, task).last, image, z)
    ensures MergedSoFar(before, MergedAll(before, parts[..k], at), job, at,
                        if k == 0 then 0 else UnitsOf(job, k - 1).last, image, z)
  {
    hide HoldsUnits, MergedSoFar, Merged, CanCut;
    if k == 0 {
      NoneMergedYet(before, job, at, image, z);
    } else {
      TasksMerge(before, parts, job, at, k - 1, image, z);
      TasksFollow(if k >= 2 then k - 2 else 0, job.tasks, job.units);
      assert parts[..k][..k - 1] == parts[..k - 1];
      var units := UnitsOf(job, k - 1);
      OneMoreTask(before, MergedAll(before, parts[..k - 1], at), parts[k - 1], job, at, units.first, units.last, image,
                  z);
    }
  }

  lemma TasksAreTheSlab(before: seq<seq<Totals>>, after: seq<seq<Totals>>, job: Job, chunksPerRead: nat, at: nat,
                        image: Image, z: nat)
    requires Usable(job.o) && WellCut(job.f, job.o, chunksPerRead) && CanCut(job.o, job.f)
    requires job.units == job.slab.channelCount * Cells(job.f)
    requires MergedSoFar(before, after, job, at, job.units, image, z)
    ensures SlabAdded(before, after, job.o.regions, job.f, at, job.slab.channelCount, image, z)
  {
    hide Usable, WellCut, CanCut, UnitPixels, InFootprint, Over, Totals.Plus, O.Within, Cells;
    CanCutMeans(job.o, job.f);
    RegionsWithin(job.o);
    forall r: nat, k: nat | r < |job.o.regions| && k < job.slab.channelCount
      ensures UnitPixels(job.o.regions[r], job.f, job.o.grid, k, 0, job.units) == InFootprint(job.o.regions[r], job.f)
    {
      AllUnits(job.o.regions[r], job.f, job.o, chunksPerRead, k, job.slab.channelCount);
    }
  }

  // ---- The slab ----

  // Never fewer partials than tasks; the ones there are stay.
  method MorePartials(partials: seq<StatisticSlots>, tasks: nat, ghost accumulator: StatisticSlots)
    returns (more: seq<StatisticSlots>)
    requires Apart(partials, accumulator)
    ensures Apart(more, accumulator) && |more| >= tasks && |more| >= |partials| && more[..|partials|] == partials
    ensures forall i :: |partials| <= i < |more| ==> fresh(more[i])
  {
    more := partials;
    while |more| < tasks
      invariant Apart(more, accumulator) && |more| >= |partials| && more[..|partials|] == partials
      invariant forall i :: |partials| <= i < |more| ==> fresh(more[i])
    {
      var partial := new StatisticSlots();
      more := more + [partial];
    }
  }

  lemma FreshPartial(partial: StatisticSlots, job: Job, task: nat, image: Image, z: nat)
    requires CanCut(job.o, job.f)
    requires partial.Valid() && partial.layout == job.layout && partial.regions == |job.o.regions|
    requires partial.channels == job.slab.channelCount
    requires partial.contents == seq(|job.o.regions|, r => seq(job.slab.channelCount, c => Nothing))
    ensures PartialIs(partial, job, task, false, image, z)
  {
    CanCutMeans(job.o, job.f);
    NoUnits(job.o.regions, job.f, job.o.grid, job.slab.channelCount, UnitsOf(job, task).first, image, z,
            partial.contents);
  }

  // Every task's partial, started from nothing.
  method ResetPartials(partials: seq<StatisticSlots>, job: Job, ghost accumulator: StatisticSlots, ghost todo: set<nat>,
                       ghost image: Image, ghost z: nat)
    requires Apart(partials, accumulator) && job.tasks <= |partials| && job.layout.Valid() && CanCut(job.o, job.f)
    requires forall task: nat :: task < job.tasks ==> task in todo
    modifies set i | 0 <= i < |partials| :: partials[i]
    ensures PartialsAre(partials, job, todo, image, z)
  {
    hide *;
    for k := 0 to job.tasks
      invariant forall task: nat :: task < k ==> PartialIs(partials[task], job, task, false, image, z)
    {
      ApartMeans(partials, accumulator);
      partials[k].Reset(job.layout, |job.o.regions|, job.slab.channelCount);
      FreshPartial(partials[k], job, k, image, z);
    }
    AllToDo(partials, job, todo, image, z);
  }

  lemma ApartMeans(partials: seq<StatisticSlots>, accumulator: StatisticSlots)
    requires Apart(partials, accumulator)
    ensures forall i, j :: 0 <= i < j < |partials| ==> partials[i] != partials[j]
    ensures forall i :: 0 <= i < |partials| ==> partials[i] != accumulator
  {}

  lemma AllToDo(partials: seq<StatisticSlots>, job: Job, todo: set<nat>, image: Image, z: nat)
    requires CanCut(job.o, job.f) && job.tasks <= |partials|
    requires forall task: nat :: task < job.tasks ==>
              task in todo && PartialIs(partials[task], job, task, false, image, z)
    ensures PartialsAre(partials, job, todo, image, z)
  {}

  lemma PartialMeans(partials: seq<StatisticSlots>, job: Job, todo: set<nat>, task: nat, image: Image, z: nat)
    requires CanCut(job.o, job.f) && job.tasks <= |partials| && PartialsAre(partials, job, todo, image, z)
    requires task < job.tasks
    ensures job.o.grid.chunkU > 0 && job.o.grid.chunkV > 0 && job.f.cuBegin < job.f.cuEnd && job.f.cvBegin < job.f.cvEnd
    ensures ForRegions(partials[task], job.layout, |job.o.regions|, job.slab.channelCount)
    ensures var units := UnitsOf(job, task);
            HoldsUnits(partials[task].contents, job.o.regions, job.f, job.o.grid, job.slab.channelCount, units.first,
                       if task in todo then units.first else units.last, image, z)
  {
    assert PartialIs(partials[task], job, task, task !in todo, image, z);
    hide HoldsUnits, ForRegions;
  }

  lemma UnitsInside(job: Job, task: nat)
    requires task < job.tasks
    ensures UnitsOf(job, task).first <= UnitsOf(job, task).last <= job.units
  {}

  // Every task, whichever is claimed next. One alone runs on the calling thread, and one without units
  // does nothing.
  method RunTasks(partials: seq<StatisticSlots>, job: Job, deviations: bool, ghost accumulator: StatisticSlots,
                  ghost chunksPerRead: nat, ghost image: Image, ghost z: nat, todo: set<nat>)
    requires Apart(partials, accumulator) && 0 < job.tasks <= |partials| && CanCut(job.o, job.f)
    requires Reading(job.o, job.f, chunksPerRead, job.slab, image, z)
    requires job.units == job.slab.channelCount * Cells(job.f)
    requires |job.layout.slotOf| == |ORDER| && deviations == job.layout.Deviations()
    requires forall task: nat :: task in todo <==> task < job.tasks
    requires PartialsAre(partials, job, todo, image, z)
    modifies set i | 0 <= i < |partials| :: partials[i]
    ensures PartialsAre(partials, job, {}, image, z)
  {
    hide *;
    var left := todo;
    while left != {}
      invariant forall task: nat :: task in left ==> task < job.tasks
      invariant PartialsAre(partials, job, left, image, z)
      decreases left
    {
      var task: nat :| task in left;
      RunOne(partials, job, task, deviations, accumulator, chunksPerRead, image, z, left);
      left := left - {task};
    }
  }

  // One task, on its own partial.
  method RunOne(partials: seq<StatisticSlots>, job: Job, task: nat, deviations: bool, ghost accumulator: StatisticSlots,
                ghost chunksPerRead: nat, ghost image: Image, ghost z: nat, ghost left: set<nat>)
    requires Apart(partials, accumulator) && 0 < job.tasks <= |partials| && CanCut(job.o, job.f)
    requires Reading(job.o, job.f, chunksPerRead, job.slab, image, z)
    requires job.units == job.slab.channelCount * Cells(job.f)
    requires |job.layout.slotOf| == |ORDER| && deviations == job.layout.Deviations()
    requires task in left && task < job.tasks && PartialsAre(partials, job, left, image, z)
    modifies set i | 0 <= i < |partials| :: partials[i]
    ensures PartialsAre(partials, job, left - {task}, image, z)
  {
    hide *;
    PartialMeans(partials, job, left, task, image, z);
    EachPartial(partials, job, left, image, z);
    UnitsInside(job, task);
    ApartMeans(partials, accumulator);
    UnitsAre(job, task);
    if job.tasks <= 1 {
      RunTask(job.o, job.f, chunksPerRead, job.slab, job.layout, 0, job.units, deviations, partials[task], image, z);
    } else {
      var share := TaskRows(task, job.tasks, job.units);
      if share.first != share.last {
        RunTask(job.o, job.f, chunksPerRead, job.slab, job.layout, share.first, share.last, deviations, partials[task],
                image, z);
      }
    }
    OneDone(partials, job, left, task, image, z);
  }

  lemma UnitsAre(job: Job, task: nat)
    requires task < job.tasks
    ensures UnitsOf(job, task) == if job.tasks <= 1 then RowRange(0, job.units)
              else TaskRows(task, job.tasks, job.units)
  {}

  lemma EachPartial(partials: seq<StatisticSlots>, job: Job, todo: set<nat>, image: Image, z: nat)
    requires CanCut(job.o, job.f) && job.tasks <= |partials| && PartialsAre(partials, job, todo, image, z)
    ensures forall i: nat :: i < job.tasks ==> PartialIs(partials[i], job, i, i !in todo, image, z)
  {}

  lemma OneDone(partials: seq<StatisticSlots>, job: Job, left: set<nat>, task: nat, image: Image, z: nat)
    requires CanCut(job.o, job.f) && job.tasks <= |partials| && task < job.tasks
    requires forall i: nat :: i < job.tasks && i != task ==> PartialIs(partials[i], job, i, i !in left, image, z)
    requires job.o.grid.chunkU > 0 && job.o.grid.chunkV > 0 && job.f.cuBegin < job.f.cuEnd
    requires job.f.cvBegin < job.f.cvEnd
    requires ForRegions(partials[task], job.layout, |job.o.regions|, job.slab.channelCount)
    requires HoldsUnits(partials[task].contents, job.o.regions, job.f, job.o.grid, job.slab.channelCount,
                        UnitsOf(job, task).first, UnitsOf(job, task).last, image, z)
    ensures PartialsAre(partials, job, left - {task}, image, z)
  {
    hide HoldsUnits, ForRegions, UnitsOf;
    forall i: nat | i < job.tasks ensures PartialIs(partials[i], job, i, i !in left - {task}, image, z) {
      if i != task { assert PartialIs(partials[i], job, i, i !in left, image, z); }
    }
  }

  method EveryTask(tasks: nat) returns (todo: set<nat>)
    ensures forall task: nat :: task in todo <==> task < tasks
  {
    todo := {};
    for k := 0 to tasks
      invariant forall task: nat :: task in todo <==> task < k
    {
      todo := todo + {k};
    }
  }

  // One read's worth of pixels, into the block's own totals.
  method AccumulateSlab(o: O.Occupancy, f: OccupiedFootprint, ghost chunksPerRead: nat, slab: Slab,
                        layout: StatisticLayout,
                        split: TaskSplit, accumulator: StatisticSlots, partials: seq<StatisticSlots>,
                        ghost image: Image, ghost z: nat)
    returns (more: seq<StatisticSlots>)
    requires Reading(o, f, chunksPerRead, slab, image, z) && slab.channelCount > 0
    requires accumulator.Valid() && accumulator.layout == layout && accumulator.regions == |o.regions|
    requires slab.firstChannel + slab.channelCount <= accumulator.channels
    requires Apart(partials, accumulator) && split.most >= 1
    modifies accumulator`values, accumulator`contents, set i | 0 <= i < |partials| :: partials[i]
    ensures accumulator.Valid()
    ensures SlabAdded(old(accumulator.contents), accumulator.contents, o.regions, f, slab.firstChannel,
                      slab.channelCount,
                      image, z)
    ensures Apart(more, accumulator) && |more| >= |partials| && more[..|partials|] == partials
    ensures forall i :: |partials| <= i < |more| ==> fresh(more[i])
  {
    hide *;
    accumulator.ValidMeans();
    accumulator.ContentsShape();
    ReadingMeans(o, f, chunksPerRead, slab, image, z);
    CanCutMeans(o, f);
    var units := slab.channelCount * Cells(f);
    var tasks := split.Tasks(o.grid.chunkU * o.grid.chunkV, units);
    SomeTasks(slab.channelCount, Cells(f));
    more := MorePartials(partials, tasks, accumulator);
    ghost var before := accumulator.contents;
    var job := Job(o, f, slab, layout, tasks, units);
    var todo := EveryTask(tasks);
    ResetPartials(more, job, accumulator, todo, image, z);
    RunTasks(more, job, layout.Deviations(), accumulator, chunksPerRead, image, z, todo);
    ghost var parts := TasksDone(more, job, accumulator, image, z);
    ApartMeans(more, accumulator);
    accumulator.MergeInOrder(more, tasks, slab.firstChannel, parts);
    TasksMerge(before, parts, job, slab.firstChannel, tasks, image, z);
    assert parts[..tasks] == parts;
    LastTask(job);
    TasksAreTheSlab(before, accumulator.contents, job, chunksPerRead, slab.firstChannel, image, z);
  }

  lemma SomeTasks(channels: nat, cells: nat)
    requires channels > 0 && cells > 0
    ensures channels * cells > 0
  {}

  lemma LastTask(job: Job)
    requires job.tasks > 0
    ensures UnitsOf(job, job.tasks - 1).last == job.units
  {
    TasksFollow(0, job.tasks, job.units);
  }

  // What the partials hold once every task is done.
  ghost method TasksDone(partials: seq<StatisticSlots>, job: Job, accumulator: StatisticSlots, image: Image, z: nat)
    returns (parts: seq<seq<seq<Totals>>>)
    requires CanCut(job.o, job.f) && job.tasks <= |partials| && PartialsAre(partials, job, {}, image, z)
    requires Apart(partials, accumulator)
    ensures |parts| == job.tasks
    ensures job.o.grid.chunkU > 0 && job.o.grid.chunkV > 0 && job.f.cuBegin < job.f.cuEnd && job.f.cvBegin < job.f.cvEnd
    ensures forall task: nat :: task < job.tasks ==>
              && partials[task].Valid() && partials[task].layout == job.layout
              && partials[task].regions == |job.o.regions| && partials[task].channels == job.slab.channelCount
              && partials[task].contents == parts[task]
              && HoldsUnits(parts[task], job.o.regions, job.f, job.o.grid, job.slab.channelCount,
                            UnitsOf(job, task).first, UnitsOf(job, task).last, image, z)
  {
    CanCutMeans(job.o, job.f);
    parts := seq(job.tasks, task requires 0 <= task < job.tasks reads partials => partials[task].contents);
    forall task: nat | task < job.tasks
      ensures partials[task].Valid() && partials[task].layout == job.layout
      ensures partials[task].regions == |job.o.regions| && partials[task].channels == job.slab.channelCount
      ensures HoldsUnits(parts[task], job.o.regions, job.f, job.o.grid, job.slab.channelCount,
                         UnitsOf(job, task).first, UnitsOf(job, task).last, image, z)
    {
      PartialMeans(partials, job, {}, task, image, z);
      ForRegionsMeans(partials[task], job.layout, |job.o.regions|, job.slab.channelCount);
    }
  }
}
