// A plane's histogram over a fixed range: the binning of one read and its division into tasks, bin_slab
// of ComputeHistogram, src/reduce/plane_histogram.cc.

module PlaneHistograms {
  import opened Wrappers
  import opened Reals
  import opened Values
  import opened SlabReduction
  import opened TaskSplits
  import opened ProvisionalHistograms
  import B = ChunkBlocks

  // ---- Bins of equal width over a range ----

  datatype Bins = Bins(lower: real, upper: real, count: nat)
  {
    ghost predicate Valid() { lower < upper && count > 0 }

    function Width(): (width: real)
      requires Valid()
      ensures width > 0.0 && width * count as real == upper - lower
    {
      (upper - lower) / count as real
    }

    // The least value of bin b.
    function Edge(b: nat): real
      requires Valid()
    {
      lower + b as real * Width()
    }
  }

  // The bin a pixel is counted in: none outside the range, and the last for its very end.
  function BinOf(bins: Bins, pixel: Double): (bin: int)
    requires bins.Valid()
    ensures bin < bins.count
  {
    if !pixel.Finite? || !(bins.lower <= pixel.value <= bins.upper) then -1
    else
      var bin := ((pixel.value - bins.lower) / bins.Width()).Floor;
      if bin >= bins.count then bins.count - 1 else bin
  }

  // A pixel is counted in the bin whose edges it lies between, the upper one included in the last.
  lemma BinIs(bins: Bins, x: real, b: nat)
    requires bins.Valid() && b < bins.count
    ensures BinOf(bins, Finite(x)) == b
       <==> bins.Edge(b) <= x && if b == bins.count - 1 then x <= bins.upper else x < bins.Edge(b + 1)
    ensures BinOf(bins, Finite(x)) == -1 <==> x < bins.lower || bins.upper < x
  {
    Edges(bins, b);
    if bins.lower <= x <= bins.upper {
      var q := (x - bins.lower) / bins.Width();
      AtEdge(bins, x, b, q);
      AtEdge(bins, x, b + 1, q);
      FloorIs(q, b);
      FloorIs(q, b + 1);
      AtEdge(bins, x, 0, q);
      FloorIs(q, 0);
      hide Bins.Edge, Bins.Width;
    }
  }

  // At or past an edge by so many widths as edges.
  lemma AtEdge(bins: Bins, x: real, b: nat, q: real)
    requires bins.Valid() && q == (x - bins.lower) / bins.Width()
    ensures b as real <= q <==> bins.Edge(b) <= x
    ensures bins.Edge(0) == bins.lower
  {
    Quotient(q, bins.Width(), x - bins.lower);
    Above(b as real, q, bins.Width());
  }

  lemma Above(b: real, q: real, w: real)
    requires w > 0.0
    ensures b <= q <==> b * w <= q * w
  {
    if b > q { Ordered(q, b, w); }
    if b < q { Ordered(b, q, w); }
  }

  lemma Ordered(a: real, b: real, w: real)
    requires a < b && w > 0.0
    ensures a * w < b * w
  {
    assert (b - a) * w > 0.0;
  }

  lemma FloorIs(q: real, b: nat)
    ensures b <= q.Floor <==> b as real <= q
  {}

  lemma Edges(bins: Bins, b: nat)
    requires bins.Valid() && b < bins.count
    ensures bins.lower <= bins.Edge(b) && bins.Edge(b + 1) <= bins.upper
    ensures b == bins.count - 1 ==> bins.Edge(b + 1) == bins.upper
  {
    var w := bins.Width();
    Above((b + 1) as real, bins.count as real, w);
    Above(0.0, b as real, w);
  }

  // ---- Counting ----

  // How many of some pixels are in a bin, and in the range.
  ghost function InBin(pixels: seq<Double>, bins: Bins, b: nat): nat
    requires bins.Valid()
  {
    if pixels == [] then 0
    else InBin(pixels[..|pixels| - 1], bins, b) + if BinOf(bins, pixels[|pixels| - 1]) == b then 1 else 0
  }

  ghost function InRange(pixels: seq<Double>, bins: Bins): nat
    requires bins.Valid()
  {
    if pixels == [] then 0
    else InRange(pixels[..|pixels| - 1], bins) + if BinOf(bins, pixels[|pixels| - 1]) >= 0 then 1 else 0
  }

  ghost function InFirst(pixels: seq<Double>, bins: Bins, n: nat): nat
    requires bins.Valid()
  {
    if n == 0 then 0 else InFirst(pixels, bins, n - 1) + InBin(pixels, bins, n - 1)
  }

  // Every pixel of the range is in one bin.
  lemma {:induction false} BinsHoldTheRange(pixels: seq<Double>, bins: Bins)
    requires bins.Valid()
    ensures InFirst(pixels, bins, bins.count) == InRange(pixels, bins)
    decreases |pixels|
  {
    if pixels == [] {
      NoneInFirst(bins, bins.count);
    } else {
      BinsHoldTheRange(pixels[..|pixels| - 1], bins);
      OneMoreInFirst(pixels, bins, bins.count);
    }
  }

  lemma {:induction false} NoneInFirst(bins: Bins, n: nat)
    requires bins.Valid()
    ensures InFirst([], bins, n) == 0
  {
    if n > 0 { NoneInFirst(bins, n - 1); }
  }

  lemma {:induction false} OneMoreInFirst(pixels: seq<Double>, bins: Bins, n: nat)
    requires bins.Valid() && pixels != []
    ensures InFirst(pixels, bins, n)
         == InFirst(pixels[..|pixels| - 1], bins, n) + if 0 <= BinOf(bins, pixels[|pixels| - 1]) < n then 1 else 0
  {
    hide BinOf;
    if n > 0 { OneMoreInFirst(pixels, bins, n - 1); }
  }

  lemma {:induction false} InBinJoins(a: seq<Double>, c: seq<Double>, bins: Bins, b: nat)
    requires bins.Valid()
    ensures InBin(a + c, bins, b) == InBin(a, bins, b) + InBin(c, bins, b)
    decreases |c|
  {
    hide BinOf;
    if c == [] {
      assert a + c == a;
    } else {
      var l := |c| - 1;
      assert (a + c)[..|a| + l] == a + c[..l];
      InBinJoins(a, c[..l], bins, b);
    }
  }

  // The counts from `at` on have grown by the pixels of each bin, and no others have changed.
  ghost predicate Counted(before: seq<nat>, after: seq<nat>, at: nat, bins: Bins, pixels: seq<Double>)
    requires bins.Valid()
  {
    && |after| == |before| && at + bins.count <= |before|
    && forall j: nat :: j < |before| ==> GrownBy(before, after, at, bins, pixels, j)
  }

  ghost predicate GrownBy(before: seq<nat>, after: seq<nat>, at: nat, bins: Bins, pixels: seq<Double>, j: nat)
    requires bins.Valid() && j < |before| == |after|
  {
    after[j] == before[j] + if at <= j < at + bins.count then InBin(pixels, bins, j - at) else 0
  }

  lemma NothingCounted(counts: seq<nat>, at: nat, bins: Bins)
    requires bins.Valid() && at + bins.count <= |counts|
    ensures Counted(counts, counts, at, bins, [])
  {}

  lemma CountedOn(a: seq<nat>, b: seq<nat>, c: seq<nat>, at: nat, bins: Bins, first: seq<Double>, second: seq<Double>)
    requires bins.Valid() && Counted(a, b, at, bins, first) && Counted(b, c, at, bins, second)
    ensures Counted(a, c, at, bins, first + second)
  {
    hide InBin;
    forall j: nat | j < |a| ensures GrownBy(a, c, at, bins, first + second, j) {
      assert GrownBy(a, b, at, bins, first, j) && GrownBy(b, c, at, bins, second, j);
      if at <= j < at + bins.count { InBinJoins(first, second, bins, j - at); }
    }
  }

  // ---- Rows ----

  ghost predicate Entire(slab: Slab) {
    Readable(slab, slab.channelCount * slab.vCount)
  }

  // Row v of the plane at an offset, among the rows of all of them.
  function RowOf(slab: Slab, offset: nat, v: nat): nat { offset * slab.vCount + v }

  lemma RowInPlane(slab: Slab, offset: nat, v: nat, u: nat)
    requires Entire(slab) && offset < slab.channelCount && v < slab.vCount && u < slab.uCount
    ensures RowOf(slab, offset, v) < slab.channelCount * slab.vCount
    ensures slab.Place(u, v, offset) < |slab.pixels|
    ensures slab.pixels[slab.Place(u, v, offset)]
         == RowPixels(slab, slab.channelCount * slab.vCount, RowOf(slab, offset, v))[u]
  {
    B.MulMono(offset + 1, slab.channelCount, slab.vCount);
    RowInside(offset, v, slab);
    assert RowAt(slab, RowOf(slab, offset, v)) == offset * slab.strideZ + v * slab.strideV by {
      B.DivMod(offset, v, slab.vCount);
    }
    var rows := slab.channelCount * slab.vCount;
    RowHas(slab, rows, RowOf(slab, offset, v), u);
  }

  lemma RowInside(offset: nat, v: nat, slab: Slab)
    requires v < slab.vCount
    ensures RowOf(slab, offset, v) + 1 <= (offset + 1) * slab.vCount
  {}

  lemma PlaneInside(slab: Slab, offset: nat, v: nat)
    requires offset < slab.channelCount && v <= slab.vCount
    ensures RowOf(slab, offset, v) <= slab.channelCount * slab.vCount
  {
    B.MulMono(offset + 1, slab.channelCount, slab.vCount);
    NextPlane(slab, offset);
  }

  lemma NextPlane(slab: Slab, offset: nat)
    ensures RowOf(slab, offset, slab.vCount) == RowOf(slab, offset + 1, 0)
    ensures RowOf(slab, offset + 1, 0) == (offset + 1) * slab.vCount
  {}

  lemma PixelCounted(before: seq<nat>, counts: seq<nat>, at: nat, bins: Bins, so: seq<Double>, pixel: Double,
                     row: seq<Double>, u: nat)
    requires bins.Valid() && u < |row| && row[u] == pixel && so == row[..u] && Counted(before, counts, at, bins, so)
    ensures var b := BinOf(bins, pixel);
            Counted(before, if b < 0 then counts else counts[at + b := counts[at + b] + 1], at, bins, row[..u + 1])
  {
    hide BinOf;
    var b := BinOf(bins, pixel);
    var next := if b < 0 then counts else counts[at + b := counts[at + b] + 1];
    var more := row[..u + 1];
    assert more[..u] == so;
    forall j: nat | j < |before| ensures GrownBy(before, next, at, bins, more, j) {
      assert GrownBy(before, counts, at, bins, so, j);
    }
  }

  ghost function PlaneRows(slab: Slab, offset: nat, first: nat, last: nat): seq<Double>
    requires Entire(slab) && offset < slab.channelCount && first <= last <= slab.vCount
  {
    PlaneInside(slab, offset, last);
    RowsPixels(slab, slab.channelCount * slab.vCount, RowOf(slab, offset, first), RowOf(slab, offset, last))
  }

  ghost function PlaneRow(slab: Slab, offset: nat, v: nat): (row: seq<Double>)
    requires Entire(slab) && offset < slab.channelCount && v < slab.vCount
    ensures |row| == slab.uCount
  {
    PlaneInside(slab, offset, v + 1);
    RowPixels(slab, slab.channelCount * slab.vCount, RowOf(slab, offset, v))
  }

  lemma PlaneRowsStep(slab: Slab, offset: nat, first: nat, v: nat)
    requires Entire(slab) && offset < slab.channelCount && first <= v < slab.vCount
    ensures PlaneRows(slab, offset, first, first) == []
    ensures PlaneRows(slab, offset, first, v + 1) == PlaneRows(slab, offset, first, v) + PlaneRow(slab, offset, v)
  {
    hide RowPixels;
  }

  lemma PlaneRowHas(slab: Slab, offset: nat, v: nat, u: nat)
    requires Entire(slab) && offset < slab.channelCount && v < slab.vCount && u < slab.uCount
    ensures slab.Place(u, v, offset) < |slab.pixels|
    ensures slab.pixels[slab.Place(u, v, offset)] == PlaneRow(slab, offset, v)[u]
  {
    RowInPlane(slab, offset, v, u);
    hide Slab.Place, RowPixels;
  }

  // Some rows of one plane.
  method BinRows(bins: Bins, slab: Slab, offset: nat, first: nat, last: nat, destination: seq<nat>, at: nat)
    returns (counts: seq<nat>)
    requires bins.Valid() && Entire(slab) && offset < slab.channelCount && first <= last <= slab.vCount
    requires at + bins.count <= |destination|
    ensures Counted(destination, counts, at, bins, PlaneRows(slab, offset, first, last))
  {
    hide *;
    counts := destination;
    NothingCounted(counts, at, bins);
    NoPlaneRows(slab, offset, first);
    for v := first to last
      invariant Counted(destination, counts, at, bins, PlaneRows(slab, offset, first, v))
    {
      ghost var row := PlaneRow(slab, offset, v);
      ghost var before := counts;
      CountedSize(destination, counts, at, bins, PlaneRows(slab, offset, first, v));
      NothingCounted(counts, at, bins);
      assert row[..0] == [];
      for u := 0 to slab.uCount
        invariant Counted(before, counts, at, bins, row[..u])
      {
        PlaneRowHas(slab, offset, v, u);
        CountedSize(before, counts, at, bins, row[..u]);
        var value := slab.pixels[slab.Place(u, v, offset)];
        PixelCounted(before, counts, at, bins, row[..u], value, row, u);
        var bin := BinOf(bins, value);
        if bin >= 0 {
          counts := counts[at + bin := counts[at + bin] + 1];
        }
      }
      assert row[..slab.uCount] == row;
      CountedOn(destination, before, counts, at, bins, PlaneRows(slab, offset, first, v), row);
      PlaneRowsStep(slab, offset, first, v);
    }
  }

  lemma NoPlaneRows(slab: Slab, offset: nat, first: nat)
    requires Entire(slab) && offset < slab.channelCount && first <= slab.vCount
    ensures PlaneRows(slab, offset, first, first) == []
  {}

  lemma CountedSize(before: seq<nat>, after: seq<nat>, at: nat, bins: Bins, pixels: seq<Double>)
    requires bins.Valid() && Counted(before, after, at, bins, pixels)
    ensures |after| == |before| && at + bins.count <= |after|
  {}

  // ---- Tasks ----

  // Where bin b of a task's private histogram is.
  function TaskBin(task: nat, count: nat, b: nat): nat { task * count + b }

  // A private histogram holds exactly these pixels.
  ghost predicate Holds(partials: seq<nat>, task: nat, bins: Bins, pixels: seq<Double>)
    requires bins.Valid()
  {
    forall b: nat :: b < bins.count ==> HoldsBin(partials, task, bins, pixels, b)
  }

  ghost predicate HoldsBin(partials: seq<nat>, task: nat, bins: Bins, pixels: seq<Double>, b: nat)
    requires bins.Valid()
  {
    TaskBin(task, bins.count, b) < |partials| && partials[TaskBin(task, bins.count, b)] == InBin(pixels, bins, b)
  }

  ghost function TaskPixels(slab: Slab, offset: nat, tasks: nat, task: nat): seq<Double>
    requires Entire(slab) && offset < slab.channelCount && tasks > 0
  {
    PlaneRows(slab, offset, TaskRows(task, tasks, slab.vCount).first, TaskRows(task, tasks, slab.vCount).last)
  }

  // Counting into one private histogram leaves the others as they were.
  lemma TaskCounts(before: seq<nat>, after: seq<nat>, bins: Bins, task: nat, tasks: nat, pixels: seq<Double>)
    requires bins.Valid() && task < tasks && |before| == tasks * bins.count
    requires Counted(before, after, TaskBin(task, bins.count, 0), bins, pixels) && Holds(before, task, bins, [])
    ensures Holds(after, task, bins, pixels)
    ensures forall t: nat, its :: t < tasks && t != task && Holds(before, t, bins, its) ==> Holds(after, t, bins, its)
  {
    hide InBin, HoldsBin, TaskBin;
    forall b: nat | b < bins.count ensures HoldsBin(after, task, bins, pixels, b) {
      assert HoldsBin(before, task, bins, [], b);
      GrownHere(before, after, bins, task, pixels, b);
    }
    forall t: nat, its | t < tasks && t != task && Holds(before, t, bins, its) ensures Holds(after, t, bins, its) {
      forall b: nat | b < bins.count ensures HoldsBin(after, t, bins, its, b) {
        assert HoldsBin(before, t, bins, its, b);
        NotGrownThere(before, after, bins, task, t, pixels, its, b);
      }
    }
  }

  lemma GrownHere(before: seq<nat>, after: seq<nat>, bins: Bins, task: nat, pixels: seq<Double>, b: nat)
    requires bins.Valid() && b < bins.count && HoldsBin(before, task, bins, [], b)
    requires Counted(before, after, TaskBin(task, bins.count, 0), bins, pixels)
    ensures HoldsBin(after, task, bins, pixels, b)
  {
    assert GrownBy(before, after, TaskBin(task, bins.count, 0), bins, pixels, TaskBin(task, bins.count, b));
  }

  lemma NotGrownThere(before: seq<nat>, after: seq<nat>, bins: Bins, task: nat, t: nat, pixels: seq<Double>,
                      its: seq<Double>, b: nat)
    requires bins.Valid() && b < bins.count && t != task && HoldsBin(before, t, bins, its, b)
    requires Counted(before, after, TaskBin(task, bins.count, 0), bins, pixels)
    ensures HoldsBin(after, t, bins, its, b)
  {
    hide InBin;
    assert GrownBy(before, after, TaskBin(task, bins.count, 0), bins, pixels, TaskBin(t, bins.count, b));
    if t < task { B.MulMono(t + 1, task, bins.count); } else { B.MulMono(task + 1, t, bins.count); }
    Steps(t, task, bins.count);
  }

  lemma Steps(a: nat, b: nat, count: nat)
    ensures (a + 1) * count == a * count + count && (b + 1) * count == b * count + count
  {}

  lemma Zeroed(partials: seq<nat>, bins: Bins, tasks: nat)
    requires bins.Valid() && |partials| == tasks * bins.count && forall i :: 0 <= i < |partials| ==> partials[i] == 0
    ensures forall t: nat :: t < tasks ==> Holds(partials, t, bins, [])
  {
    forall t: nat | t < tasks ensures Holds(partials, t, bins, []) {
      forall b: nat | b < bins.count ensures HoldsBin(partials, t, bins, [], b) {
        Digit(b, t, bins.count, tasks);
      }
    }
  }

  lemma Digit(b: nat, t: nat, count: nat, tasks: nat)
    requires b < count && t < tasks
    ensures TaskBin(t, count, b) < tasks * count && TaskBin(t, count, 0) + count <= tasks * count
  {
    B.MulMono(t + 1, tasks, count);
    Steps(t, t, count);
  }

  // The private histogram of one task, added into the plane's.
  method AddPartial(bins: Bins, counts: seq<nat>, at: nat, partials: seq<nat>, task: nat, ghost pixels: seq<Double>)
    returns (sum: seq<nat>)
    requires bins.Valid() && at + bins.count <= |counts| && Holds(partials, task, bins, pixels)
    ensures Counted(counts, sum, at, bins, pixels)
  {
    hide InBin, TaskBin;
    sum := counts;
    for b := 0 to bins.count
      invariant |sum| == |counts|
      invariant forall j: nat :: j < |counts| ==>
                  sum[j] == counts[j] + if at <= j < at + b then InBin(pixels, bins, j - at) else 0
    {
      assert HoldsBin(partials, task, bins, pixels, b);
      sum := sum[at + b := sum[at + b] + partials[TaskBin(task, bins.count, b)]];
    }
  }

  // The tasks' rows, one after another, are the plane's.
  lemma TasksJoin(slab: Slab, offset: nat, tasks: nat, task: nat)
    requires Entire(slab) && offset < slab.channelCount && tasks > 0 && task < tasks
    ensures TaskRows(task, tasks, slab.vCount).last <= slab.vCount
    ensures PlaneRows(slab, offset, 0, TaskRows(task, tasks, slab.vCount).last)
         == PlaneRows(slab, offset, 0, TaskRows(task, tasks, slab.vCount).first) + TaskPixels(slab, offset, tasks, task)
  {
    hide TaskRows, RowsPixels, RowPixels;
    var share := TaskRows(task, tasks, slab.vCount);
    PlaneInside(slab, offset, slab.vCount);
    RowsInOrder(slab, offset, share.first, share.last);
    RowsJoin(slab, slab.channelCount * slab.vCount, RowOf(slab, offset, 0), RowOf(slab, offset, share.first),
             RowOf(slab, offset, share.last));
  }

  lemma RowsInOrder(slab: Slab, offset: nat, a: nat, b: nat)
    requires a <= b <= slab.vCount && offset < slab.channelCount
    ensures RowOf(slab, offset, 0) <= RowOf(slab, offset, a) <= RowOf(slab, offset, b)
    ensures RowOf(slab, offset, b) <= slab.channelCount * slab.vCount
  {
    PlaneInside(slab, offset, b);
  }

  // One plane of a read, whichever task is claimed next: its counts are those of the serial loop.
  method BinPlane(bins: Bins, slab: Slab, offset: nat, split: TaskSplit, counts: seq<nat>, at: nat)
    returns (sum: seq<nat>)
    requires bins.Valid() && Entire(slab) && offset < slab.channelCount && at + bins.count <= |counts|
    ensures Counted(counts, sum, at, bins, PlaneRows(slab, offset, 0, slab.vCount))
  {
    hide *;
    var tasks := split.Tasks(slab.uCount, slab.vCount);
    if tasks <= 1 {
      sum := BinRows(bins, slab, offset, 0, slab.vCount, counts, at);
      return;
    }
    var partials: seq<nat> := seq(tasks * bins.count, _ => 0);
    Zeroed(partials, bins, tasks);
    var left := Upto(tasks);
    while left != {}
      invariant |partials| == tasks * bins.count && forall t: nat :: t in left ==> t < tasks
      invariant forall t: nat :: t < tasks ==>
                  Holds(partials, t, bins, if t in left then [] else TaskPixels(slab, offset, tasks, t))
      decreases left
    {
      var task: nat :| task in left;
      var share := TaskRows(task, tasks, slab.vCount);
      HasBins(bins);
      Digit(0, task, bins.count, tasks);
      ghost var before := partials;
      TaskPixelsAre(slab, offset, tasks, task);
      partials := BinRows(bins, slab, offset, share.first, share.last, partials, TaskBin(task, bins.count, 0));
      CountedSize(before, partials, TaskBin(task, bins.count, 0), bins, TaskPixels(slab, offset, tasks, task));
      TaskCounts(before, partials, bins, task, tasks, TaskPixels(slab, offset, tasks, task));
      left := left - {task};
    }
    sum := counts;
    NothingCounted(counts, at, bins);
    NoPlaneRows(slab, offset, 0);
    TasksFollow(0, tasks, slab.vCount);
    for task := 0 to tasks
      invariant Counted(counts, sum, at, bins, PlaneRows(slab, offset, 0, TaskRows(task, tasks, slab.vCount).first))
    {
      ghost var before := sum;
      var so := TaskRows(task, tasks, slab.vCount);
      CountedSize(counts, sum, at, bins, PlaneRows(slab, offset, 0, so.first));
      sum := AddPartial(bins, sum, at, partials, task, TaskPixels(slab, offset, tasks, task));
      CountedOn(counts, before, sum, at, bins, PlaneRows(slab, offset, 0, so.first),
                TaskPixels(slab, offset, tasks, task));
      TasksJoin(slab, offset, tasks, task);
      TasksFollow(task, tasks, slab.vCount);
    }
    TasksFollow(tasks - 1, tasks, slab.vCount);
  }

  lemma TaskPixelsAre(slab: Slab, offset: nat, tasks: nat, task: nat)
    requires Entire(slab) && offset < slab.channelCount && tasks > 0
    ensures var share := TaskRows(task, tasks, slab.vCount);
            TaskPixels(slab, offset, tasks, task) == PlaneRows(slab, offset, share.first, share.last)
  {}

  lemma HasBins(bins: Bins)
    requires bins.Valid()
    ensures bins.count > 0
  {}

  // ---- A read ----

  // What a read adds to bin b of channel c of a block, and to every other count nothing.
  ghost predicate SlabCounted(before: seq<nat>, after: seq<nat>, bins: Bins, slab: Slab, channels: nat)
    requires bins.Valid() && Entire(slab) && channels <= slab.channelCount
  {
    && |after| == |before|
    && (forall c: nat, b: nat :: c < channels && b < bins.count ==>
          ChannelCounted(before, after, bins, slab, c, b))
    && (forall j: nat :: j < |before| && !(TaskBin(slab.firstChannel, bins.count, 0) <= j
                                          < TaskBin(slab.firstChannel + channels, bins.count, 0)) ==>
          after[j] == before[j])
  }

  ghost predicate ChannelCounted(before: seq<nat>, after: seq<nat>, bins: Bins, slab: Slab, c: nat, b: nat)
    requires bins.Valid() && Entire(slab) && c < slab.channelCount
  {
    var at := TaskBin(slab.firstChannel + c, bins.count, b);
    && at < |before| && at < |after|
    && after[at] == before[at] + InBin(PlaneRows(slab, c, 0, slab.vCount), bins, b)
  }

  lemma OneMoreChannel(before: seq<nat>, counts: seq<nat>, after: seq<nat>, bins: Bins, slab: Slab, c: nat)
    requires bins.Valid() && Entire(slab) && c < slab.channelCount && SlabCounted(before, counts, bins, slab, c)
    requires Counted(counts, after, TaskBin(slab.firstChannel + c, bins.count, 0), bins,
                     PlaneRows(slab, c, 0, slab.vCount))
    ensures SlabCounted(before, after, bins, slab, c + 1)
  {
    var first := slab.firstChannel;
    var pixels := PlaneRows(slab, c, 0, slab.vCount);
    hide InBin, PlaneRows, Entire;
    Steps(first, first + c, bins.count);
    B.MulMono(first, first + c, bins.count);
    forall d: nat, b: nat | d < c + 1 && b < bins.count ensures ChannelCounted(before, after, bins, slab, d, b) {
      assert GrownBy(counts, after, TaskBin(first + c, bins.count, 0), bins, pixels,
                     TaskBin(first + d, bins.count, b)) by {
        if d < c { assert ChannelCounted(before, counts, bins, slab, d, b); }
      }
      if d < c {
        assert ChannelCounted(before, counts, bins, slab, d, b);
        B.MulMono(first + d + 1, first + c, bins.count);
        Steps(first + d, first + d, bins.count);
      } else {
        B.MulMono(first, first + c, bins.count);
      }
    }
    forall j: nat | j < |before| && !(TaskBin(first, bins.count, 0) <= j < TaskBin(first + (c + 1), bins.count, 0))
      ensures after[j] == before[j]
    {
      assert GrownBy(counts, after, TaskBin(first + c, bins.count, 0), bins, pixels, j);
    }
  }

  lemma NoChannel(counts: seq<nat>, bins: Bins, slab: Slab)
    requires bins.Valid() && Entire(slab)
    ensures SlabCounted(counts, counts, bins, slab, 0)
  {}

  // One read's worth of pixels into the block's counts: every channel's pixels into its own bins, each pixel
  // of the range once, however the rows are divided into tasks.
  method BinSlab(bins: Bins, slab: Slab, split: TaskSplit, counts: seq<nat>) returns (after: seq<nat>)
    requires bins.Valid() && Entire(slab)
    requires TaskBin(slab.firstChannel + slab.channelCount, bins.count, 0) <= |counts|
    ensures SlabCounted(counts, after, bins, slab, slab.channelCount)
  {
    hide *;
    after := counts;
    NoChannel(counts, bins, slab);
    for offset := 0 to slab.channelCount
      invariant |after| == |counts| && SlabCounted(counts, after, bins, slab, offset)
    {
      ghost var before := after;
      var at := TaskBin(slab.firstChannel + offset, bins.count, 0);
      RoomFor(slab, offset, bins.count);
      after := BinPlane(bins, slab, offset, split, after, at);
      CountedSize(before, after, at, bins, PlaneRows(slab, offset, 0, slab.vCount));
      OneMoreChannel(counts, before, after, bins, slab, offset);
    }
  }

  lemma RoomFor(slab: Slab, offset: nat, count: nat)
    requires offset < slab.channelCount
    ensures TaskBin(slab.firstChannel + offset, count, 0) + count
         <= TaskBin(slab.firstChannel + slab.channelCount, count, 0)
  {
    B.MulMono(slab.firstChannel + offset + 1, slab.firstChannel + slab.channelCount, count);
    Steps(slab.firstChannel + offset, slab.firstChannel + offset, count);
  }
}
