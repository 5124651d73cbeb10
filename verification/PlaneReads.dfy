// What a pass over the whole plane reads: OverBands of src/reduce/pass.h joined to the calls a pass makes,
// and what the pixels of one of its reads come to.

module PlaneReads {
  import opened Values
  import opened Footprints
  import opened Passes
  import opened PlaneBands
  import B = ChunkBlocks

  // ---- Every sampled pixel of every channel is read once ----

  // A call reads sample (i, j) of channel c.
  ghost predicate ReadsSample(call: Call, fs: seq<SlabFootprint>, sample: nat, i: nat, j: nat, c: nat)
    requires sample > 0
  {
    call.Visit? && call.footprint < |fs| && Takes(fs[call.footprint], sample, i, j) && call.begin <= c < call.end
  }

  // How many of the calls do.
  ghost function VisitsOf(calls: seq<Call>, fs: seq<SlabFootprint>, sample: nat, i: nat, j: nat, c: nat): nat
    requires sample > 0
  {
    if calls == [] then 0
    else
      VisitsOf(calls[..|calls| - 1], fs, sample, i, j, c)
      + if ReadsSample(calls[|calls| - 1], fs, sample, i, j, c) then 1 else 0
  }

  // How many of the first n footprints take the sample and have been read at channel c.
  ghost function TakersAt(visited: set<(nat, nat)>, fs: seq<SlabFootprint>, n: nat, sample: nat, i: nat, j: nat,
                          c: nat): nat
    requires sample > 0 && n <= |fs|
  {
    if n == 0 then 0
    else
      TakersAt(visited, fs, n - 1, sample, i, j, c)
      + if (n - 1, c) in visited && Takes(fs[n - 1], sample, i, j) then 1 else 0
  }

  lemma {:induction false} TakersAtNone(fs: seq<SlabFootprint>, n: nat, sample: nat, i: nat, j: nat, c: nat)
    requires sample > 0 && n <= |fs|
    ensures TakersAt({}, fs, n, sample, i, j, c) == 0
  {
    if n > 0 { TakersAtNone(fs, n - 1, sample, i, j, c); }
  }

  lemma {:induction false} TakersAtAll(visited: set<(nat, nat)>, fs: seq<SlabFootprint>, n: nat, sample: nat, i: nat,
                                       j: nat, c: nat)
    requires sample > 0 && n <= |fs| && forall f: nat :: f < n ==> (f, c) in visited
    ensures TakersAt(visited, fs, n, sample, i, j, c) == Takers(fs[..n], sample, i, j)
  {
    hide Takes;
    if n > 0 {
      TakersAtAll(visited, fs, n - 1, sample, i, j, c);
      assert fs[..n][..n - 1] == fs[..n - 1];
    }
  }

  lemma {:induction false} TakersAtMore(visited: set<(nat, nat)>, f: nat, begin: nat, end: nat, fs: seq<SlabFootprint>,
                                        n: nat, sample: nat, i: nat, j: nat, c: nat)
    requires sample > 0 && n <= |fs| && f < |fs| && forall d :: begin <= d < end ==> (f, d) !in visited
    ensures TakersAt(visited + Channels(f, begin, end), fs, n, sample, i, j, c)
         == TakersAt(visited, fs, n, sample, i, j, c)
            + if f < n && begin <= c < end && Takes(fs[f], sample, i, j) then 1 else 0
  {
    hide Takes;
    if n > 0 { TakersAtMore(visited, f, begin, end, fs, n - 1, sample, i, j, c); }
  }

  // The blocks before this one are read whole, this one as far as the walk has got, and none after it.
  ghost predicate Counting(w: Walked, calls: seq<Call>, fs: seq<SlabFootprint>, sample: nat)
    requires sample > 0
  {
    && (w.finished ==> AllVisited(w, |fs|))
    && forall i: nat, j: nat, c: nat :: VisitsOf(calls, fs, sample, i, j, c) == Expected(w, fs, sample, i, j, c)
  }

  ghost function Expected(w: Walked, fs: seq<SlabFootprint>, sample: nat, i: nat, j: nat, c: nat): nat
    requires sample > 0
  {
    if c < w.begin then Takers(fs, sample, i, j)
    else if c < w.begin + w.length then TakersAt(w.visited, fs, |fs|, sample, i, j, c)
    else 0
  }

  lemma OneMoreCounted(w: Walked, calls: seq<Call>, call: Call, plan: PassPlan, fs: seq<SlabFootprint>, sample: nat)
    requires sample > 0 && Counting(w, calls, fs, sample) && Allowed(w, call, plan, fs)
    ensures Counting(After(w, call, plan, fs), calls + [call], fs, sample)
  {
    hide Takes, Takers, PassPlan.Aligned, PassPlan.ChunksTouched, PassPlan.ChunksCovering, LayerOf, TakersAt;
    var w', more := After(w, call, plan, fs), calls + [call];
    assert more[..|calls|] == calls;
    forall i: nat, j: nat, c: nat
      ensures VisitsOf(more, fs, sample, i, j, c) == Expected(w', fs, sample, i, j, c)
    {
      assert VisitsOf(calls, fs, sample, i, j, c) == Expected(w, fs, sample, i, j, c);
      if call.Visit? {
        TakersAtMore(w.visited, call.footprint, call.begin, call.end, fs, |fs|, sample, i, j, c);
      } else if call.Reset? {
        TakersAtNone(fs, |fs|, sample, i, j, c);
        if w.begin <= c < w.begin + w.length { TakersAtAll(w.visited, fs, |fs|, sample, i, j, c); }
        assert fs[..|fs|] == fs;
      }
    }
  }

  lemma {:induction false} CountedSoFar(w: Walked, calls: seq<Call>, plan: PassPlan, fs: seq<SlabFootprint>,
                                        sample: nat)
    requires sample > 0 && Follows(w, calls, plan, fs) && Counting(w, [], fs, sample)
    ensures Counting(AfterAll(w, calls, plan, fs), calls, fs, sample)
    decreases |calls|
  {
    hide Allowed, After, Counting;
    if calls != [] {
      var before := calls[..|calls| - 1];
      assert before + [calls[|before|]] == calls;
      forall k | 0 <= k < |before| ensures Allowed(AfterAll(w, before[..k], plan, fs), before[k], plan, fs) {
        assert before[..k] == calls[..k];
      }
      CountedSoFar(w, before, plan, fs, sample);
      OneMoreCounted(AfterAll(w, before, plan, fs), before, calls[|before|], plan, fs, sample);
    }
  }

  lemma NothingCounted(w: Walked, fs: seq<SlabFootprint>, sample: nat)
    requires sample > 0 && w.begin == 0 && w.visited == {} && (w.finished ==> w.length == 0)
    ensures Counting(w, [], fs, sample)
  {
    hide TakersAt, Takers;
    forall i: nat, j: nat, c: nat ensures Expected(w, fs, sample, i, j, c) == 0 {
      TakersAtNone(fs, |fs|, sample, i, j, c);
    }
  }

  // Footprints that take each sample of the plane once.
  ghost predicate Tiling(fs: seq<SlabFootprint>, plan: PassPlan)
    requires plan.sample > 0
  {
    && (forall k :: 0 <= k < |fs| ==> WellBanded(fs[k], plan))
    && forall i: nat, j: nat :: Takers(fs, plan.sample, i, j) == if OnPlane(plan, i, j) then 1 else 0
  }

  // A pass that has finished has visited every sampled pixel of every selected channel exactly once, and
  // nothing else.
  lemma EachSampleOnce(w: Walked, calls: seq<Call>, plan: PassPlan, fs: seq<SlabFootprint>, i: nat, j: nat, c: nat)
    requires plan.Valid() && Tiling(fs, plan) && Follows(w, calls, plan, fs)
    requires w.begin == 0 && w.visited == {} && (w.finished ==> w.length == 0)
    requires var after := AfterAll(w, calls, plan, fs);
             (after.finished || AllVisited(after, |fs|)) && after.begin + after.length == plan.count
    ensures VisitsOf(calls, fs, plan.sample, i, j, c) == if OnPlane(plan, i, j) && c < plan.count then 1 else 0
  {
    var after := AfterAll(w, calls, plan, fs);
    NothingCounted(w, fs, plan.sample);
    CountedSoFar(w, calls, plan, fs, plan.sample);
    hide AfterAll, Follows, VisitsOf, Takes;
    if after.begin <= c < after.begin + after.length { TakersAtAll(after.visited, fs, |fs|, plan.sample, i, j, c); }
    assert fs[..|fs|] == fs;
  }

  // ---- The pixels read ----

  // The pixels of one footprint, and of the plane's sample.
  ghost function Footing(f: SlabFootprint): set<At> {
    set du: nat, dv: nat | du < f.uCount && dv < f.vCount ::
      At(Along(f.uStart, du, f.uStride), Along(f.vStart, dv, f.vStride))
  }

  // Every sample-th pixel, along both axes, of a plane so many pixels across.
  ghost predicate InSample(width: nat, height: nat, sample: nat, p: At)
    requires sample > 0
  {
    p.u < width && p.v < height && p.u % sample == 0 && p.v % sample == 0
  }

  ghost function Sampled(width: nat, height: nat, sample: nat): set<At>
    requires sample > 0
  {
    set u: nat, v: nat | u < width && v < height && InSample(width, height, sample, At(u, v)) :: At(u, v)
  }

  // A coordinate of a stretch that begins on the sample.
  lemma StretchHolds(start: nat, count: nat, stride: nat, x: nat)
    requires stride > 0 && start % stride == 0
    ensures (exists k: nat :: k < count && Along(start, k, stride) == x)
       <==> x % stride == 0 && start / stride <= x / stride < start / stride + count
  {
    var first := start / stride;
    hide Along;
    if k: nat :| k < count && Along(start, k, stride) == x {
      StretchPlace(start, k, stride);
    }
    if x % stride == 0 && first <= x / stride < first + count {
      StretchReached(start, stride, x);
      assert Along(start, x / stride - first, stride) == x;
    }
  }

  lemma StretchPlace(start: nat, k: nat, stride: nat)
    requires stride > 0 && start % stride == 0
    ensures Along(start, k, stride) % stride == 0 && Along(start, k, stride) / stride == start / stride + k
  {
    Multiple(start / stride, k, stride);
    B.DivMod(start / stride + k, 0, stride);
  }

  lemma StretchReached(start: nat, stride: nat, x: nat)
    requires stride > 0 && start % stride == 0 && x % stride == 0 && start / stride <= x / stride
    ensures Along(start, x / stride - start / stride, stride) == x
  {
    Multiple(start / stride, x / stride - start / stride, stride);
  }

  lemma Multiple(first: nat, k: nat, stride: nat)
    ensures first * stride + k * stride == (first + k) * stride
  {}

  lemma FootingIs(f: SlabFootprint, plan: PassPlan, p: At)
    requires WellBanded(f, plan)
    ensures p in Footing(f) <==>
              && p.u % plan.sample == 0 && p.v % plan.sample == 0
              && Takes(f, plan.sample, p.u / plan.sample, p.v / plan.sample)
  {
    StretchHolds(f.uStart, f.uCount, f.uStride, p.u);
    StretchHolds(f.vStart, f.vCount, f.vStride, p.v);
    hide Along;
    assert p == At(p.u, p.v);
    if (exists k: nat :: k < f.uCount && Along(f.uStart, k, f.uStride) == p.u)
       && exists k: nat :: k < f.vCount && Along(f.vStart, k, f.vStride) == p.v
    {
      var du: nat :| du < f.uCount && Along(f.uStart, du, f.uStride) == p.u;
      var dv: nat :| dv < f.vCount && Along(f.vStart, dv, f.vStride) == p.v;
    }
  }

  // A footprint takes a sample exactly when the sample is of the plane's.
  lemma {:induction false} TakersMany(fs: seq<SlabFootprint>, sample: nat, i: nat, j: nat, f: nat, g: nat)
    requires sample > 0 && f < |fs| && Takes(fs[f], sample, i, j)
    ensures Takers(fs, sample, i, j) >= 1
    ensures g < f && Takes(fs[g], sample, i, j) ==> Takers(fs, sample, i, j) >= 2
    decreases |fs|
  {
    hide Takes;
    var l := |fs| - 1;
    if f < l {
      TakersMany(fs[..l], sample, i, j, f, g);
    } else if g < f && Takes(fs[g], sample, i, j) {
      TakersMany(fs[..l], sample, i, j, g, g);
    }
  }

  lemma {:induction false} SomeTaker(fs: seq<SlabFootprint>, sample: nat, i: nat, j: nat) returns (f: nat)
    requires sample > 0 && Takers(fs, sample, i, j) >= 1
    ensures f < |fs| && Takes(fs[f], sample, i, j)
    decreases |fs|
  {
    hide Takes;
    var l := |fs| - 1;
    if Takes(fs[l], sample, i, j) { f := l; } else { f := SomeTaker(fs[..l], sample, i, j); }
  }

  lemma BandsApart(fs: seq<SlabFootprint>, plan: PassPlan, f: nat, g: nat)
    requires plan.sample > 0 && Tiling(fs, plan) && f < |fs| && g < |fs| && f != g
    ensures Footing(fs[f]) !! Footing(fs[g])
  {
    hide Takes, Takers, WellBanded, Footing;
    forall p: At | p in Footing(fs[f]) && p in Footing(fs[g]) ensures false {
      FootingIs(fs[f], plan, p);
      FootingIs(fs[g], plan, p);
      var i, j := p.u / plan.sample, p.v / plan.sample;
      TakersMany(fs, plan.sample, i, j, B.Max(f, g), B.Min(f, g));
    }
  }

  // The pixels of the plane a walk has read at one channel.
  ghost function PlaneRead(visited: set<(nat, nat)>, fs: seq<SlabFootprint>, channel: nat): set<At> {
    set f: nat, p | f < |fs| && (f, channel) in visited && p in Footing(fs[f]) :: p
  }

  lemma OneMoreFooting(visited: set<(nat, nat)>, fs: seq<SlabFootprint>, plan: PassPlan, f: nat, begin: nat, end: nat,
                       channel: nat)
    requires plan.sample > 0 && Tiling(fs, plan) && f < |fs|
    requires begin <= channel < end ==> (f, channel) !in visited
    ensures var more := if begin <= channel < end then Footing(fs[f]) else {};
      && PlaneRead(visited + Channels(f, begin, end), fs, channel) == PlaneRead(visited, fs, channel) + more
      && PlaneRead(visited, fs, channel) !! more
  {
    hide Footing, Tiling;
    var after := visited + Channels(f, begin, end);
    forall g: nat ensures (g, channel) in after <==> (g, channel) in visited || (g == f && begin <= channel < end) {
      if g == f && begin <= channel < end { assert (f, channel) in Channels(f, begin, end); }
    }
    if begin <= channel < end {
      forall g: nat | g < |fs| && (g, channel) in visited ensures Footing(fs[g]) !! Footing(fs[f]) {
        BandsApart(fs, plan, g, f);
      }
    }
    hide Channels;
  }

  lemma NothingOfThePlane(fs: seq<SlabFootprint>, channel: nat)
    ensures PlaneRead({}, fs, channel) == {}
  {}

  // Every footprint read, all of the sample is.
  lemma PlaneIsRead(visited: set<(nat, nat)>, fs: seq<SlabFootprint>, plan: PassPlan, channel: nat)
    requires plan.sample > 0 && Tiling(fs, plan) && forall f: nat :: f < |fs| ==> (f, channel) in visited
    ensures PlaneRead(visited, fs, channel) == Sampled(plan.uLength, plan.vLength, plan.sample)
  {
    hide Takes, Takers, WellBanded, Footing;
    var s := plan.sample;
    forall p: At
      ensures p in PlaneRead(visited, fs, channel) <==> InSample(plan.uLength, plan.vLength, plan.sample, p)
    {
      var i, j := p.u / s, p.v / s;
      forall f: nat | f < |fs|
        ensures p in Footing(fs[f]) <==> p.u % s == 0 && p.v % s == 0 && Takes(fs[f], s, i, j)
      {
        FootingIs(fs[f], plan, p);
      }
      assert p.u % s == 0 && p.v % s == 0 ==> p.u == i * s && p.v == j * s;
      if p in PlaneRead(visited, fs, channel) {
        var f: nat :| f < |fs| && (f, channel) in visited && p in Footing(fs[f]);
        TakersMany(fs, s, i, j, f, f);
      }
      if InSample(plan.uLength, plan.vLength, plan.sample, p) {
        var f := SomeTaker(fs, s, i, j);
        assert (f, channel) in visited && p in Footing(fs[f]);
      }
    }
    SampledIs(plan.uLength, plan.vLength, plan.sample);
  }

  lemma SampledIs(width: nat, height: nat, sample: nat)
    requires sample > 0
    ensures forall p: At :: p in Sampled(width, height, sample) <==> InSample(width, height, sample, p)
  {
    forall p: At ensures p in Sampled(width, height, sample) <==> InSample(width, height, sample, p) {
      assert p == At(p.u, p.v);
    }
  }
}
