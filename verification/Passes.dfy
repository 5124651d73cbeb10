// A pass as the calls its walk makes: src/reduce/pass.h, by the plan of src/reduce/pass_plan.h and
// src/reduce/pass.cc. What the walk does is the list of calls it makes of the reduction, in order.

module Passes {
  import opened Footprints
  import B = ChunkBlocks

  // ---- The plan ----

  const SPECTRAL_EMIT_BUDGET_BYTES := 0x400_0000

  datatype PassPlan = PassPlan(
    uLength: nat, vLength: nat, chunkU: nat, chunkV: nat, chunkBytes: nat, slabBudgetBytes: nat,
    bandRows: nat, layerChunks: nat, start: nat, count: nat, stride: nat, sample: nat,
    chunkDepth: nat, leastChannels: nat)
  {
    // The planes were checked before the plan was made, and every chunk is at least one element.
    ghost predicate Valid() {
      && chunkU > 0 && chunkV > 0 && chunkDepth > 0 && sample > 0
      && count > 0 && stride > 0
      && leastChannels == B.CeilDiv(chunkDepth, stride)
    }

    // The spectral chunks that hold a channel of the selection from `begin` up to `end`, counted.
    function ChunksTouched(begin: nat, end: nat): nat
      requires begin <= end
    {
      B.ChunksTouched(start + begin * stride, end - begin, stride, chunkDepth)
    }

    function ChunksCovering(layer: nat, begin: nat, end: nat): (total: nat)
      requires begin <= end
      ensures total >= 1
    {
      B.Max(1, layer * ChunksTouched(begin, end))
    }

    function ChunksPerRead(): nat {
      slabBudgetBytes / B.Max(1, chunkBytes)
    }

    function UnitsAffordable(chunksPerUnit: nat): (units: nat)
      ensures units >= 1
    {
      B.UnitsAffordable(ChunksPerRead(), chunksPerUnit)
    }

    function SlabChannels(footprintChunks: nat): (channels: nat)
      ensures channels >= 1
    {
      B.Max(1, UnitsAffordable(footprintChunks) * leastChannels)
    }

    function AlignedSlabEnd(begin: nat, desired: nat, end: nat): nat {
      B.AlignedBlockEnd(begin, desired, end, start, stride, chunkDepth)
    }

    ghost predicate Aligned(channel: nat) {
      B.Aligned(channel, start, stride, chunkDepth)
    }

    function EmitChannels(layer: nat, bytesPerChannel: nat, hint: nat): nat
    {
      var budgetChannels := B.Max(1, SPECTRAL_EMIT_BUDGET_BYTES / B.Max(1, bytesPerChannel));
      var spatialChannels := if layer == 0 then count else B.Min(count, UnitsAffordable(layer)) * leastChannels;
      B.Min(B.Min(if hint == 0 then spatialChannels else hint, budgetChannels), count)
    }

    // A cut that splits no chunk moves forward and stays inside.
    lemma SlabEndIs(begin: nat, desired: nat, end: nat)
      requires Valid() && begin < end
      ensures begin < AlignedSlabEnd(begin, desired, end) <= end
      ensures AlignedSlabEnd(begin, desired, end) == end || Aligned(AlignedSlabEnd(begin, desired, end))
    {
      B.AlignedBlockEndIs(begin, desired, end, start, stride, chunkDepth);
    }

    lemma TouchedAdds(begin: nat, middle: nat, end: nat)
      requires Valid() && begin <= middle <= end && (begin < middle < end ==> Aligned(middle))
      ensures ChunksTouched(begin, end) == ChunksTouched(begin, middle) + ChunksTouched(middle, end)
      ensures begin < end ==> ChunksTouched(begin, end) >= 1
      ensures ChunksTouched(begin, begin) == 0
    {
      B.TouchedAddsUp(begin, middle, end, start, stride, chunkDepth);
      if begin < end { B.TouchedAtLeastOne(start + begin * stride, end - begin, stride, chunkDepth); }
    }
  }

  // ---- The calls ----

  datatype Call =
    | Reset(length: nat)
    | Visit(footprint: nat, begin: nat, end: nat, first: nat)
    | HandOver(first: nat, length: nat, complete: bool, done: nat, total: nat)

  // How far along a report says the walk is.
  function Fraction(report: Call): real
    requires report.HandOver? && report.total > 0
  {
    if report.complete then 1.0 else report.done as real / report.total as real
  }

  // The footprints' chunks at a single channel, added up.
  function LayerOf(fs: seq<SlabFootprint>): nat {
    if fs == [] then 0 else LayerOf(fs[..|fs| - 1]) + fs[|fs| - 1].chunks
  }

  function SlabsOf(fs: seq<OccupiedFootprint>): (slabs: seq<SlabFootprint>)
    ensures |slabs| == |fs| && forall i :: 0 <= i < |fs| ==> slabs[i] == fs[i].slab
  {
    seq(|fs|, i requires 0 <= i < |fs| => fs[i].slab)
  }

  lemma {:induction false} LayerOfSlabs(fs: seq<OccupiedFootprint>)
    ensures LayerOf(SlabsOf(fs)) == ChunksOf(fs)
    decreases |fs|
  {
    if fs != [] {
      assert SlabsOf(fs)[..|fs| - 1] == SlabsOf(fs[..|fs| - 1]);
      LayerOfSlabs(fs[..|fs| - 1]);
    }
  }

  // ---- What a list of calls has walked ----

  // Where the calls so far have got in the current block: its channels, the chunks read of it, the
  // last number of chunks reported, and which channels of which footprints have been visited.
  datatype Walked = Walked(begin: nat, length: nat, done: nat, reported: nat, visited: set<(nat, nat)>, finished: bool)

  const NOTHING_WALKED := Walked(0, 0, 0, 0, {}, true)

  ghost function Channels(footprint: nat, begin: nat, end: nat): set<(nat, nat)> {
    set c | begin <= c < end :: (footprint, c)
  }

  // What a call comes to.
  ghost function After(w: Walked, call: Call, plan: PassPlan, fs: seq<SlabFootprint>): Walked {
    match call
    case Reset(length) => Walked(w.begin + w.length, length, 0, 0, {}, false)
    case Visit(f, begin, end, _) =>
      w.(done := w.done + (if f < |fs| && begin <= end then fs[f].chunks * plan.ChunksTouched(begin, end) else 0),
         visited := w.visited + Channels(f, begin, end))
    case HandOver(_, _, complete, done, _) => w.(reported := done, finished := complete)
  }

  ghost function AfterAll(w: Walked, calls: seq<Call>, plan: PassPlan, fs: seq<SlabFootprint>): Walked {
    if calls == [] then w else After(AfterAll(w, calls[..|calls| - 1], plan, fs), calls[|calls| - 1], plan, fs)
  }

  ghost predicate AllVisited(w: Walked, footprints: nat) {
    forall f: nat, c: nat :: (f, c) in w.visited <==> f < footprints && w.begin <= c < w.begin + w.length
  }

  // The footprints read so far at one channel.
  ghost function FootprintsRead(w: Walked, n: nat, channel: nat): set<nat> {
    set pair | pair in w.visited && pair.0 < n && pair.1 == channel :: pair.0
  }

  lemma ReadIs(w: Walked, n: nat, channel: nat, f: nat)
    ensures f in FootprintsRead(w, n, channel) <==> f < n && (f, channel) in w.visited
  {
    if f < n && (f, channel) in w.visited {
      var pair := (f, channel);
      assert pair in w.visited && pair.0 == f;
    }
  }

  lemma VisitedMeans(w: Walked, footprints: nat, f: nat, channel: nat)
    requires AllVisited(w, footprints) && w.begin <= channel < w.begin + w.length
    ensures (f, channel) in w.visited <==> f < footprints
  {}

  // What a pass may call next.
  ghost predicate Allowed(w: Walked, call: Call, plan: PassPlan, fs: seq<SlabFootprint>) {
    match call
    case Reset(length) =>
      // A block follows the one before it, whole, and none splits a chunk.
      && w.finished && length > 0 && w.begin + w.length + length <= plan.count
      && (w.begin + w.length + length < plan.count ==> plan.Aligned(w.begin + w.length + length))
    case Visit(f, begin, end, first) =>
      // A slab of one footprint, of channels of the block not yet read, that splits no chunk: after a
      // report of what is in hand, unless it is the block's first.
      && !w.finished && f < |fs|
      && w.begin <= begin < end <= w.begin + w.length && first == begin - w.begin
      && (forall c :: begin <= c < end ==> (f, c) !in w.visited)
      && (end < w.begin + w.length ==> plan.Aligned(end))
      && (w.visited == {} || w.reported == w.done)
    case HandOver(first, length, complete, done, total) =>
      && !w.finished && first == w.begin && length == w.length && done == w.done
      && total == plan.ChunksCovering(B.Max(1, LayerOf(fs)), w.begin, w.begin + w.length)
      && if complete then AllVisited(w, |fs|) && w.reported <= done && (fs != [] ==> done == total)
         else w.reported < done < total
  }

  ghost predicate Follows(w: Walked, calls: seq<Call>, plan: PassPlan, fs: seq<SlabFootprint>) {
    forall k :: 0 <= k < |calls| ==> Allowed(AfterAll(w, calls[..k], plan, fs), calls[k], plan, fs)
  }

  lemma OneMoreCall(w: Walked, calls: seq<Call>, call: Call, plan: PassPlan, fs: seq<SlabFootprint>)
    requires Follows(w, calls, plan, fs) && Allowed(AfterAll(w, calls, plan, fs), call, plan, fs)
    ensures Follows(w, calls + [call], plan, fs)
    ensures AfterAll(w, calls + [call], plan, fs) == After(AfterAll(w, calls, plan, fs), call, plan, fs)
  {
    hide Allowed, After;
    var more := calls + [call];
    assert more[..|calls|] == calls;
    forall k | 0 <= k < |more| ensures Allowed(AfterAll(w, more[..k], plan, fs), more[k], plan, fs) {
      if k < |calls| { assert more[..k] == calls[..k]; }
    }
  }

  // ---- One footprint along the spectrum, and every footprint ----

  ghost predicate Occupying(fs: seq<SlabFootprint>) {
    forall i :: 0 <= i < |fs| ==> fs[i].chunks >= 1
  }

  // Part-way through a block: the footprints before f are read, and f up to channel `at`.
  ghost predicate PartWay(w: Walked, plan: PassPlan, fs: seq<SlabFootprint>, begin: nat, end: nat, f: nat, at: nat,
                          readsDone: nat)
    requires f <= |fs| && begin <= at <= end
  {
    && w.begin == begin && w.length == end - begin && !w.finished
    && w.done == LayerOf(fs[..f]) * plan.ChunksTouched(begin, end)
                 + (if f < |fs| then fs[f].chunks * plan.ChunksTouched(begin, at) else 0)
    && (forall g: nat, c: nat :: (g, c) in w.visited <==> begin <= c < end && (g < f || (g == f && f < |fs| && c < at)))
    && (readsDone == 0 <==> w.visited == {})
    && (at == begin || at == end || plan.Aligned(at))
  }

  // What is left is more than nothing: a part-filled block never counts as whole.
  lemma StillToRead(w: Walked, plan: PassPlan, fs: seq<SlabFootprint>, begin: nat, end: nat, f: nat, at: nat,
                    readsDone: nat)
    requires plan.Valid() && Occupying(fs) && f < |fs| && begin <= at < end
    requires PartWay(w, plan, fs, begin, end, f, at, readsDone)
    ensures w.done < plan.ChunksCovering(B.Max(1, LayerOf(fs)), begin, end)
  {
    plan.TouchedAdds(begin, at, end);
    plan.TouchedAdds(at, at, end);
    LayerUpTo(fs, f + 1);
    assert fs[..f + 1][..f] == fs[..f];
    hide PassPlan.ChunksTouched, PassPlan.Aligned, LayerOf;
    var t, a, l, x := plan.ChunksTouched(begin, end), plan.ChunksTouched(begin, at), LayerOf(fs[..f]), fs[f].chunks;
    BelowTheWhole(l, x, a, t, LayerOf(fs));
  }

  lemma BelowTheWhole(l: nat, x: nat, a: nat, t: nat, layer: nat)
    requires x >= 1 && a < t && l + x <= layer
    ensures l * t + x * a < layer * t
  {
    B.MulMono(l + x, layer, t);
    assert (l + x) * t == l * t + x * t;
    B.Order(a, t, x);
  }

  lemma {:induction false} LayerUpTo(fs: seq<SlabFootprint>, n: nat)
    requires n <= |fs|
    ensures LayerOf(fs[..n]) <= LayerOf(fs)
    ensures n > 0 ==> LayerOf(fs[..n]) == LayerOf(fs[..n - 1]) + fs[n - 1].chunks
    decreases |fs| - n
  {
    if n > 0 { assert fs[..n][..n - 1] == fs[..n - 1]; }
    if n < |fs| {
      LayerUpTo(fs, n + 1);
      assert fs[..n + 1][..n] == fs[..n];
    } else {
      assert fs[..n] == fs;
    }
  }

  lemma AfterVisit(w: Walked, plan: PassPlan, fs: seq<SlabFootprint>, begin: nat, end: nat, f: nat, at: nat, to: nat,
                   readsDone: nat)
    requires plan.Valid() && Occupying(fs) && f < |fs| && begin <= at < to <= end && (to == end || plan.Aligned(to))
    requires PartWay(w, plan, fs, begin, end, f, at, readsDone) && w.reported == w.done
    ensures var after := After(w, Visit(f, at, to, at - begin), plan, fs);
            PartWay(after, plan, fs, begin, end, f, to, readsDone + 1) && after.reported < after.done
  {
    MoreDone(w, plan, fs, begin, end, f, at, to, readsDone);
    MoreVisited(w, plan, fs, begin, end, f, at, to, readsDone);
    hide PassPlan.ChunksTouched, PassPlan.Aligned, LayerOf, PassPlan.Valid, Channels;
  }

  lemma MoreDone(w: Walked, plan: PassPlan, fs: seq<SlabFootprint>, begin: nat, end: nat, f: nat, at: nat, to: nat,
                 readsDone: nat)
    requires plan.Valid() && Occupying(fs) && f < |fs| && begin <= at < to <= end && (to == end || plan.Aligned(to))
    requires PartWay(w, plan, fs, begin, end, f, at, readsDone)
    ensures var done := w.done + fs[f].chunks * plan.ChunksTouched(at, to);
      && done == LayerOf(fs[..f]) * plan.ChunksTouched(begin, end) + fs[f].chunks * plan.ChunksTouched(begin, to)
      && w.done < done
  {
    plan.TouchedAdds(begin, at, to);
    plan.TouchedAdds(at, at, to);
    hide PassPlan.ChunksTouched, PassPlan.Aligned, LayerOf, PassPlan.Valid;
    MoreChunks(fs[f].chunks, plan.ChunksTouched(begin, at), plan.ChunksTouched(at, to),
               LayerOf(fs[..f]) * plan.ChunksTouched(begin, end));
  }

  lemma MoreVisited(w: Walked, plan: PassPlan, fs: seq<SlabFootprint>, begin: nat, end: nat, f: nat, at: nat, to: nat,
                    readsDone: nat)
    requires f < |fs| && begin <= at < to <= end && PartWay(w, plan, fs, begin, end, f, at, readsDone)
    ensures var visited := w.visited + Channels(f, at, to);
      && visited != {}
      && forall g: nat, c: nat :: (g, c) in visited <==> begin <= c < end && (g < f || (g == f && f < |fs| && c < to))
  {
    hide PassPlan.ChunksTouched, PassPlan.Aligned, LayerOf;
    assert (f, at) in Channels(f, at, to);
  }

  lemma MoreChunks(x: nat, a: nat, b: nat, before: nat)
    requires x >= 1 && b >= 1
    ensures before + x * (a + b) == before + x * a + x * b && x * b >= 1
  {}

  // A footprint read to the end is the next one not yet begun.
  lemma NextFootprint(w: Walked, plan: PassPlan, fs: seq<SlabFootprint>, begin: nat, end: nat, f: nat, readsDone: nat)
    requires plan.Valid() && f < |fs| && begin < end && PartWay(w, plan, fs, begin, end, f, end, readsDone)
    ensures PartWay(w, plan, fs, begin, end, f + 1, begin, readsDone)
  {
    LayerUpTo(fs, f + 1);
    plan.TouchedAdds(begin, begin, end);
    hide PassPlan.ChunksTouched, PassPlan.Aligned, LayerOf;
    var t, l, x := plan.ChunksTouched(begin, end), LayerOf(fs[..f]), fs[f].chunks;
    assert (l + x) * t == l * t + x * t;
  }

  // From the n-th on, only reads and reports of what is in hand.
  ghost predicate Underway(calls: seq<Call>, n: nat) {
    forall k :: n <= k < |calls| ==> calls[k].Visit? || (calls[k].HandOver? && !calls[k].complete)
  }

  lemma StillUnderway(calls: seq<Call>, n: nat, call: Call)
    requires Underway(calls, n) && (call.Visit? || (call.HandOver? && !call.complete))
    ensures Underway(calls + [call], n)
  {}

  // The channels [begin, end) of one footprint, a slab at a time. Before every read of the block
  // after its first, what is in hand is reported.
  method OverFootprint(plan: PassPlan, fs: seq<SlabFootprint>, f: nat, begin: nat, end: nat, readsDone: nat,
                       chunksDone: nat, calls: seq<Call>, ghost w: Walked, ghost from: nat)
    returns (calls': seq<Call>, readsDone': nat, chunksDone': nat)
    requires plan.Valid() && Occupying(fs) && f < |fs| && begin < end
    requires Follows(w, calls, plan, fs) && InHand(AfterAll(w, calls, plan, fs), readsDone, chunksDone)
    requires PartWay(AfterAll(w, calls, plan, fs), plan, fs, begin, end, f, begin, readsDone)
    ensures Follows(w, calls', plan, fs) && InHand(AfterAll(w, calls', plan, fs), readsDone', chunksDone')
    ensures PartWay(AfterAll(w, calls', plan, fs), plan, fs, begin, end, f, end, readsDone')
    ensures readsDone' > 0
    ensures Underway(calls, from) ==> Underway(calls', from)
  {
    hide *;
    calls', readsDone', chunksDone' := calls, readsDone, chunksDone;
    var slabChannels := plan.SlabChannels(fs[f].chunks);
    var total := plan.ChunksCovering(B.Max(1, LayerOf(fs)), begin, end);
    var slabBegin := begin;
    while slabBegin < end
      invariant begin <= slabBegin <= end && (slabBegin > begin ==> readsDone' > 0)
      invariant Follows(w, calls', plan, fs) && InHand(AfterAll(w, calls', plan, fs), readsDone', chunksDone')
      invariant PartWay(AfterAll(w, calls', plan, fs), plan, fs, begin, end, f, slabBegin, readsDone')
      invariant Underway(calls, from) ==> Underway(calls', from)
      decreases end - slabBegin
    {
      ghost var at := AfterAll(w, calls', plan, fs);
      plan.SlabEndIs(slabBegin, B.Min(slabChannels, end - slabBegin), end);
      var slabEnd := plan.AlignedSlabEnd(slabBegin, B.Min(slabChannels, end - slabBegin), end);
      if readsDone' > 0 {
        var report := HandOver(begin, end - begin, false, chunksDone', total);
        MayReport(at, plan, fs, begin, end, f, slabBegin, readsDone', chunksDone', report);
        OneMoreCall(w, calls', report, plan, fs);
        if Underway(calls', from) { StillUnderway(calls', from, report); }
        calls' := calls' + [report];
        at := After(at, report, plan, fs);
      } else {
        NothingInHand(at, readsDone', chunksDone');
      }
      var visit := Visit(f, slabBegin, slabEnd, slabBegin - begin);
      MayVisit(at, plan, fs, begin, end, f, slabBegin, slabEnd, readsDone', visit);
      OneMoreCall(w, calls', visit, plan, fs);
      if Underway(calls', from) { StillUnderway(calls', from, visit); }
      AfterVisit(at, plan, fs, begin, end, f, slabBegin, slabEnd, readsDone');
      NowInHand(at, plan, fs, f, slabBegin, slabEnd, readsDone', chunksDone', visit);
      calls' := calls' + [visit];
      readsDone' := readsDone' + 1;
      chunksDone' := chunksDone' + fs[f].chunks * plan.ChunksTouched(slabBegin, slabEnd);
      slabBegin := slabEnd;
    }
  }

  // The counters of a walk are what its calls have come to; anything read since the last report is
  // more than was reported.
  ghost predicate InHand(w: Walked, readsDone: nat, chunksDone: nat) {
    w.done == chunksDone && if readsDone == 0 then w.done == 0 && w.reported == 0 else w.reported < w.done
  }

  lemma NothingInHand(w: Walked, readsDone: nat, chunksDone: nat)
    requires InHand(w, readsDone, chunksDone) && readsDone == 0
    ensures w.reported == w.done == chunksDone
  {}

  lemma MayReport(w: Walked, plan: PassPlan, fs: seq<SlabFootprint>, begin: nat, end: nat, f: nat, at: nat,
                  readsDone: nat, chunksDone: nat, report: Call)
    requires plan.Valid() && Occupying(fs) && f < |fs| && begin <= at < end
    requires PartWay(w, plan, fs, begin, end, f, at, readsDone) && InHand(w, readsDone, chunksDone) && readsDone > 0
    requires report == HandOver(begin, end - begin, false, chunksDone,
                                plan.ChunksCovering(B.Max(1, LayerOf(fs)), begin, end))
    ensures Allowed(w, report, plan, fs)
    ensures var after := After(w, report, plan, fs);
            PartWay(after, plan, fs, begin, end, f, at, readsDone) && after.reported == after.done == chunksDone
  {
    StillToRead(w, plan, fs, begin, end, f, at, readsDone);
    hide PassPlan.ChunksTouched, PassPlan.ChunksCovering, PassPlan.Aligned, LayerOf, PassPlan.Valid;
  }

  lemma MayVisit(w: Walked, plan: PassPlan, fs: seq<SlabFootprint>, begin: nat, end: nat, f: nat, at: nat, to: nat,
                 readsDone: nat, visit: Call)
    requires f < |fs| && begin <= at < to <= end && (to == end || plan.Aligned(to))
    requires PartWay(w, plan, fs, begin, end, f, at, readsDone) && w.reported == w.done
    requires visit == Visit(f, at, to, at - begin)
    ensures Allowed(w, visit, plan, fs)
  {
    hide PassPlan.ChunksTouched, PassPlan.ChunksCovering, PassPlan.Aligned, LayerOf;
  }

  lemma NowInHand(w: Walked, plan: PassPlan, fs: seq<SlabFootprint>, f: nat, at: nat, to: nat, readsDone: nat,
                  chunksDone: nat, visit: Call)
    requires plan.Valid() && f < |fs| && Occupying(fs) && at < to && w.done == w.reported == chunksDone
    requires visit.Visit? && visit.footprint == f && visit.begin == at && visit.end == to
    ensures InHand(After(w, visit, plan, fs), readsDone + 1, chunksDone + fs[f].chunks * plan.ChunksTouched(at, to))
  {
    plan.TouchedAdds(at, at, to);
    hide PassPlan.ChunksTouched;
    MoreChunks(fs[f].chunks, 0, plan.ChunksTouched(at, to), 0);
  }

  // Every footprint of the shape.
  method Walk(plan: PassPlan, fs: seq<SlabFootprint>, begin: nat, end: nat, calls: seq<Call>, ghost w: Walked,
              ghost from: nat)
    returns (calls': seq<Call>, readsDone: nat, chunksDone: nat)
    requires plan.Valid() && Occupying(fs) && begin < end && Follows(w, calls, plan, fs)
    requires AfterAll(w, calls, plan, fs) == Walked(begin, end - begin, 0, 0, {}, false)
    ensures Follows(w, calls', plan, fs) && InHand(AfterAll(w, calls', plan, fs), readsDone, chunksDone)
    ensures PartWay(AfterAll(w, calls', plan, fs), plan, fs, begin, end, |fs|, begin, readsDone)
    ensures Underway(calls, from) ==> Underway(calls', from)
  {
    hide *;
    calls', readsDone, chunksDone := calls, 0, 0;
    NothingRead(plan, fs, begin, end);
    for f := 0 to |fs|
      invariant Follows(w, calls', plan, fs) && InHand(AfterAll(w, calls', plan, fs), readsDone, chunksDone)
      invariant PartWay(AfterAll(w, calls', plan, fs), plan, fs, begin, end, f, begin, readsDone)
      invariant Underway(calls, from) ==> Underway(calls', from)
    {
      calls', readsDone, chunksDone := OverFootprint(plan, fs, f, begin, end, readsDone, chunksDone, calls', w, from);
      NextFootprint(AfterAll(w, calls', plan, fs), plan, fs, begin, end, f, readsDone);
    }
  }

  lemma NothingRead(plan: PassPlan, fs: seq<SlabFootprint>, begin: nat, end: nat)
    requires plan.Valid() && begin < end
    ensures PartWay(Walked(begin, end - begin, 0, 0, {}, false), plan, fs, begin, end, 0, begin, 0)
    ensures InHand(Walked(begin, end - begin, 0, 0, {}, false), 0, 0)
  {
    plan.TouchedAdds(begin, begin, end);
    hide PassPlan.ChunksTouched;
    assert fs[..0] == [];
  }

  // ---- The whole selection ----

  // A walk over every footprint has read the whole block: each footprint at each channel once.
  lemma WholeBlockRead(w: Walked, plan: PassPlan, fs: seq<SlabFootprint>, begin: nat, end: nat, readsDone: nat)
    requires plan.Valid() && begin < end && Occupying(fs) && PartWay(w, plan, fs, begin, end, |fs|, begin, readsDone)
    ensures AllVisited(w, |fs|)
    ensures fs != [] ==> w.done == plan.ChunksCovering(B.Max(1, LayerOf(fs)), begin, end)
    ensures !w.finished && w.begin == begin && w.length == end - begin
  {
    AllOfItVisited(w, plan, fs, begin, end, readsDone);
    hide *;
    if fs != [] { AllOfItDone(w, plan, fs, begin, end, readsDone); }
  }

  lemma AllOfItVisited(w: Walked, plan: PassPlan, fs: seq<SlabFootprint>, begin: nat, end: nat, readsDone: nat)
    requires begin < end && PartWay(w, plan, fs, begin, end, |fs|, begin, readsDone)
    ensures AllVisited(w, |fs|) && !w.finished && w.begin == begin && w.length == end - begin
  {
    hide PassPlan.ChunksTouched, LayerOf, PassPlan.Aligned;
  }

  lemma AllOfItDone(w: Walked, plan: PassPlan, fs: seq<SlabFootprint>, begin: nat, end: nat, readsDone: nat)
    requires plan.Valid() && begin < end && Occupying(fs) && fs != []
    requires PartWay(w, plan, fs, begin, end, |fs|, begin, readsDone)
    ensures w.done == plan.ChunksCovering(B.Max(1, LayerOf(fs)), begin, end)
  {
    assert fs[..|fs|] == fs;
    plan.TouchedAdds(begin, begin, end);
    LayerUpTo(fs, |fs|);
    hide PassPlan.ChunksTouched, LayerOf, PassPlan.Aligned, PassPlan.Valid;
    B.MulMono(1, plan.ChunksTouched(begin, end), LayerOf(fs));
  }

  // Block by block, handing each over as it fills. `layerChunks` is what one layer of the shape occupies.
  method InBlocks(plan: PassPlan, fs: seq<SlabFootprint>, layerChunks: nat, bytesPerChannel: nat, hint: nat)
    returns (calls: seq<Call>)
    requires plan.Valid() && Occupying(fs) && B.Max(1, layerChunks) == B.Max(1, LayerOf(fs))
    ensures Follows(NOTHING_WALKED, calls, plan, fs)
    ensures var w := AfterAll(NOTHING_WALKED, calls, plan, fs); w.finished && w.begin + w.length == plan.count
  {
    hide *;
    var emitChannels := plan.EmitChannels(layerChunks, bytesPerChannel, hint);
    var layer := B.Max(1, layerChunks);
    calls := [];
    NoCalls(plan, fs);
    var begin := 0;
    while begin < plan.count
      invariant begin <= plan.count && Follows(NOTHING_WALKED, calls, plan, fs)
      invariant var w := AfterAll(NOTHING_WALKED, calls, plan, fs); w.finished && w.begin + w.length == begin
      decreases plan.count - begin
    {
      plan.SlabEndIs(begin, emitChannels, plan.count);
      var end := plan.AlignedSlabEnd(begin, emitChannels, plan.count);
      var reset := Reset(end - begin);
      MayReset(AfterAll(NOTHING_WALKED, calls, plan, fs), plan, fs, begin, end, reset);
      OneMoreCall(NOTHING_WALKED, calls, reset, plan, fs);
      calls := calls + [reset];
      var readsDone, chunksDone;
      calls, readsDone, chunksDone := Walk(plan, fs, begin, end, calls, NOTHING_WALKED, 0);
      var report := HandOver(begin, end - begin, true, chunksDone, plan.ChunksCovering(layer, begin, end));
      ghost var w := AfterAll(NOTHING_WALKED, calls, plan, fs);
      WholeBlockRead(w, plan, fs, begin, end, readsDone);
      MayFinish(w, plan, fs, begin, end, readsDone, chunksDone, report);
      OneMoreCall(NOTHING_WALKED, calls, report, plan, fs);
      calls := calls + [report];
      begin := end;
    }
  }

  lemma NoCalls(plan: PassPlan, fs: seq<SlabFootprint>)
    ensures Follows(NOTHING_WALKED, [], plan, fs) && AfterAll(NOTHING_WALKED, [], plan, fs) == NOTHING_WALKED
    ensures NOTHING_WALKED.finished && NOTHING_WALKED.begin + NOTHING_WALKED.length == 0
  {}

  lemma MayReset(w: Walked, plan: PassPlan, fs: seq<SlabFootprint>, begin: nat, end: nat, reset: Call)
    requires w.finished && w.begin + w.length == begin < end <= plan.count && reset == Reset(end - begin)
    requires end == plan.count || plan.Aligned(end)
    ensures Allowed(w, reset, plan, fs)
    ensures After(w, reset, plan, fs) == Walked(begin, end - begin, 0, 0, {}, false)
  {}

  lemma MayFinish(w: Walked, plan: PassPlan, fs: seq<SlabFootprint>, begin: nat, end: nat, readsDone: nat,
                  chunksDone: nat, report: Call)
    requires !w.finished && w.begin == begin && w.length == end - begin && begin <= end && AllVisited(w, |fs|)
    requires InHand(w, readsDone, chunksDone)
    requires fs != [] ==> w.done == plan.ChunksCovering(B.Max(1, LayerOf(fs)), begin, end)
    requires report == HandOver(begin, end - begin, true, chunksDone,
                                plan.ChunksCovering(B.Max(1, LayerOf(fs)), begin, end))
    ensures Allowed(w, report, plan, fs)
    ensures var after := After(w, report, plan, fs);
            after.finished && after.begin == begin && after.length == end - begin
  {}

  // One run over all the channels, with progress reported after each slab.
  method Whole(plan: PassPlan, fs: seq<SlabFootprint>) returns (calls: seq<Call>)
    requires plan.Valid() && Occupying(fs)
    ensures Follows(Walked(0, plan.count, 0, 0, {}, false), calls, plan, fs)
    ensures Underway(calls, 0)
    ensures AllVisited(AfterAll(Walked(0, plan.count, 0, 0, {}, false), calls, plan, fs), |fs|)
    ensures fs != [] ==>
              AfterAll(Walked(0, plan.count, 0, 0, {}, false), calls, plan, fs).done
              == plan.ChunksCovering(B.Max(1, LayerOf(fs)), 0, plan.count)
  {
    ghost var w := Walked(0, plan.count, 0, 0, {}, false);
    var readsDone, chunksDone;
    calls, readsDone, chunksDone := Walk(plan, fs, 0, plan.count, [], w, 0);
    WholeBlockRead(AfterAll(w, calls, plan, fs), plan, fs, 0, plan.count, readsDone);
  }

  // ---- What a caller is told ----

  // A stretch of calls within one block.
  ghost predicate SameBlock(calls: seq<Call>, i: nat, j: nat)
    requires j <= |calls|
  {
    forall k :: i <= k < j ==> !calls[k].Reset?
  }

  lemma {:induction false} WithinBlock(w: Walked, calls: seq<Call>, plan: PassPlan, fs: seq<SlabFootprint>, i: nat,
                                       j: nat)
    requires i <= j <= |calls| && SameBlock(calls, i, j) && Follows(w, calls, plan, fs)
    ensures var a, b := AfterAll(w, calls[..i], plan, fs), AfterAll(w, calls[..j], plan, fs);
            a.begin == b.begin && a.length == b.length && a.reported <= b.reported
    decreases j
  {
    hide Allowed, After;
    if i < j {
      WithinBlock(w, calls, plan, fs, i, j - 1);
      assert calls[..j][..j - 1] == calls[..j - 1];
      StepWithinBlock(AfterAll(w, calls[..j - 1], plan, fs), calls[j - 1], plan, fs);
    }
  }

  lemma StepWithinBlock(w: Walked, call: Call, plan: PassPlan, fs: seq<SlabFootprint>)
    requires Allowed(w, call, plan, fs) && !call.Reset?
    ensures var after := After(w, call, plan, fs);
            after.begin == w.begin && after.length == w.length && w.reported <= after.reported
  {
    hide PassPlan.ChunksCovering, PassPlan.ChunksTouched, PassPlan.Aligned, LayerOf, AllVisited;
  }

  // What a report says of where the walk has got.
  lemma ReportIs(w: Walked, report: Call, plan: PassPlan, fs: seq<SlabFootprint>)
    requires Allowed(w, report, plan, fs) && report.HandOver?
    ensures report.total == plan.ChunksCovering(B.Max(1, LayerOf(fs)), w.begin, w.begin + w.length) >= 1
    ensures !report.complete ==> w.reported < report.done < report.total
    ensures After(w, report, plan, fs).reported == report.done
    ensures After(w, report, plan, fs).begin == w.begin && After(w, report, plan, fs).length == w.length
  {}

  // The fractions reported of one block strictly increase, and stay below one until it is whole.
  lemma FractionsAscend(w: Walked, calls: seq<Call>, plan: PassPlan, fs: seq<SlabFootprint>, i: nat, j: nat)
    requires Follows(w, calls, plan, fs) && i < j < |calls| && SameBlock(calls, i, j)
    requires calls[i].HandOver? && calls[j].HandOver? && !calls[i].complete
    ensures calls[i].total > 0 && calls[j].total > 0
    ensures 0.0 < Fraction(calls[i]) < 1.0 && Fraction(calls[i]) < Fraction(calls[j]) <= 1.0
  {
    hide Allowed, After, PassPlan.ChunksCovering, LayerOf;
    WithinBlock(w, calls, plan, fs, i + 1, j);
    assert calls[..i + 1][..i] == calls[..i];
    ReportIs(AfterAll(w, calls[..i], plan, fs), calls[i], plan, fs);
    ReportIs(AfterAll(w, calls[..j], plan, fs), calls[j], plan, fs);
    hide AfterAll;
    if !calls[j].complete { FractionOrder(calls[i].done, calls[j].done, calls[i].total); }
    FractionOrder(calls[i].done, calls[i].total, calls[i].total);
    FractionOrder(0, calls[i].done, calls[i].total);
  }

  lemma FractionOrder(a: nat, b: nat, total: nat)
    requires a < b <= total
    ensures a as real / total as real < b as real / total as real <= 1.0
  {}

  // ---- Blocks handed over ----

  // The channels of one hand-over.
  datatype Stretch = Stretch(first: nat, length: nat, complete: bool)

  // The complete ones begin where the one before ended: how far they reach.
  ghost function Reached(stretches: seq<Stretch>): nat {
    if stretches == [] then 0
    else
      var last := stretches[|stretches| - 1];
      if last.complete then last.first + last.length else Reached(stretches[..|stretches| - 1])
  }

  // Every one, complete or in part, begins where the complete ones before it end.
  ghost predicate InTurn(stretches: seq<Stretch>) {
    forall i :: 0 <= i < |stretches| ==> stretches[i].first == Reached(stretches[..i])
  }

  lemma OneMoreStretch(stretches: seq<Stretch>, stretch: Stretch)
    requires InTurn(stretches) && stretch.first == Reached(stretches)
    ensures InTurn(stretches + [stretch])
    ensures Reached(stretches + [stretch]) == if stretch.complete then stretch.first + stretch.length
              else Reached(stretches)
  {
    var more := stretches + [stretch];
    assert more[..|stretches|] == stretches;
    forall i | 0 <= i < |more| ensures more[i].first == Reached(more[..i]) {
      if i < |stretches| { assert more[..i] == stretches[..i]; }
    }
  }
}
