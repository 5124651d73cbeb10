// The run of chunks a plane is in, and what decoding all of it takes: RunOf, RunRequest and
// PlaneRunBytes, src/read_ahead.cc.

module Runs {
  import opened Wrappers
  import opened PixelSelections
  import opened Pieces
  import opened ReadCosts
  import B = ChunkBlocks

  // The first and the last chunk a read touches along each axis.
  datatype Run = Run(first: seq<nat>, last: seq<nat>)

  ghost function LastOf(range: Range): nat {
    range.start + (if range.count == 0 then 0 else (range.count - 1) * B.Max(1, range.stride))
  }

  // The chunk a coordinate is in: one chunk for an axis with none to speak of.
  function ChunkAt(x: nat, chunk: nat): nat {
    if chunk == 0 then 0 else x / chunk
  }

  ghost predicate IsRunOf(run: Run, shape: seq<nat>, request: ReadRequest) {
    && |run.first| == |run.last| == |request|
    && forall i :: 0 <= i < |request| ==>
         && run.first[i] == ChunkAt(request[i].start, AlongAxis(shape, i))
         && run.last[i] == ChunkAt(LastOf(request[i]), AlongAxis(shape, i))
  }

  method RunOf(shape: seq<nat>, request: ReadRequest) returns (run: Run)
    ensures IsRunOf(run, shape, request)
  {
    hide ChunkAt;
    run := Run([], []);
    for axis := 0 to |request|
      invariant |run.first| == |run.last| == axis
      invariant forall i :: 0 <= i < axis ==>
                  && run.first[i] == ChunkAt(request[i].start, AlongAxis(shape, i))
                  && run.last[i] == ChunkAt(LastOf(request[i]), AlongAxis(shape, i))
    {
      var chunk, range := AlongAxis(shape, axis), request[axis];
      var step := B.Max(1, range.stride);
      var last := range.start + if range.count == 0 then 0 else (range.count - 1) * step;
      run := Run(run.first + [ChunkAt(range.start, chunk)], run.last + [ChunkAt(last, chunk)]);
    }
  }

  // A run is a function of the request.
  lemma OneRun(a: Run, b: Run, shape: seq<nat>, request: ReadRequest)
    requires IsRunOf(a, shape, request) && IsRunOf(b, shape, request)
    ensures a == b
  {
    assert a.first == b.first && a.last == b.last;
  }

  // ---- The request that covers a run ----

  // Whole chunks from the first to the last, clipped to the axis.
  ghost predicate Covering(range: Range, length: nat, chunk: nat, first: nat, last: nat) {
    && range.stride == 1
    && range.start == (if chunk == 0 then 0 else B.Min(length, first * chunk))
    && range.start + range.count == if chunk == 0 then length else B.Min(length, (last + 1) * chunk)
  }

  ghost predicate IsRunRequest(covering: ReadRequest, axes: seq<Axis>, shape: seq<nat>, run: Run) {
    && |covering| == |axes| == |run.first| == |run.last|
    && forall i :: 0 <= i < |axes| ==>
         Covering(covering[i], axes[i].length, AlongAxis(shape, i), run.first[i], run.last[i])
  }

  method RunRequest(axes: seq<Axis>, shape: seq<nat>, plane: ReadRequest) returns (covering: ReadRequest, run: Run)
    requires Serves(axes, plane)
    ensures IsRunOf(run, shape, plane) && IsRunRequest(covering, axes, shape, run)
  {
    run := RunOf(shape, plane);
    covering := plane;
    hide ServesAxis, Covering;
    for axis := 0 to |plane|
      invariant |covering| == |plane|
      invariant forall i :: 0 <= i < axis ==>
                  Covering(covering[i], axes[i].length, AlongAxis(shape, i), run.first[i], run.last[i])
    {
      assert ServesAxis(axes, plane, axis);
      InOrder(axes, plane, shape, axis, run);
      covering := covering[axis := CoveringRange(axes[axis].length, AlongAxis(shape, axis), run.first[axis],
                                                 run.last[axis])];
    }
  }

  function CoveringRange(length: nat, chunk: nat, runFirst: nat, runLast: nat): (range: Range)
    requires runFirst <= runLast
    ensures Covering(range, length, chunk, runFirst, runLast)
  {
    var first := if chunk == 0 then 0 else B.Min(length, runFirst * chunk);
    var end := if chunk == 0 then length else B.Min(length, (runLast + 1) * chunk);
    B.MulMono(runFirst, runLast + 1, chunk);
    Range(first, end - first, 1)
  }

  lemma InOrder(axes: seq<Axis>, plane: ReadRequest, shape: seq<nat>, axis: nat, run: Run)
    requires axis < |plane| == |axes| && ServesAxis(axes, plane, axis) && IsRunOf(run, shape, plane)
    ensures run.first[axis] <= run.last[axis]
  {
    if AlongAxis(shape, axis) > 0 { B.DivMono(plane[axis].start, LastOf(plane[axis]), AlongAxis(shape, axis)); }
  }

  lemma StepsByOne(range: Range, length: nat, chunk: nat, first: nat, last: nat)
    requires Covering(range, length, chunk, first, last)
    ensures range.stride == 1
  {}

  // Two requests that cover one run are the same request.
  lemma OneRequestPerRun(a: ReadRequest, b: ReadRequest, axes: seq<Axis>, shape: seq<nat>, run: Run)
    requires IsRunRequest(a, axes, shape, run) && IsRunRequest(b, axes, shape, run)
    ensures a == b
  {
    forall i | 0 <= i < |axes| ensures a[i] == b[i] {
      assert Covering(a[i], axes[i].length, AlongAxis(shape, i), run.first[i], run.last[i]);
      assert Covering(b[i], axes[i].length, AlongAxis(shape, i), run.first[i], run.last[i]);
    }
  }

  // Along one axis: it begins and ends in the run's chunks, and holds every element the plane selects.
  lemma CoversAxis(range: Range, axis: Axis, chunk: nat, covering: Range)
    requires Fits(range, axis)
    requires Covering(covering, axis.length, chunk, ChunkAt(range.start, chunk), ChunkAt(LastOf(range), chunk))
    ensures covering.count > 0 && Fits(covering, axis)
    ensures ChunkAt(covering.start, chunk) == ChunkAt(range.start, chunk)
    ensures ChunkAt(LastOf(covering), chunk) == ChunkAt(LastOf(range), chunk)
    ensures covering.start <= range.start && LastOf(range) < covering.start + covering.count
  {
    if chunk > 0 {
      var last := LastOf(range);
      B.MulMono(0, range.count - 1, range.stride);
      B.DivMono(range.start, last, chunk);
      var a, b := range.start / chunk, last / chunk;
      B.AtOrPast(a, range.start, chunk);
      B.AtOrPast(b + 1, last, chunk);
      B.MulMono(a, b, chunk);
      B.AtOrPast(b, last, chunk);
      B.DivMod(a, 0, chunk);
      WithinChunk(b, B.Min(axis.length, (b + 1) * chunk) - 1, chunk);
    }
  }

  lemma WithinChunk(b: nat, x: nat, chunk: nat)
    requires chunk > 0 && b * chunk <= x < (b + 1) * chunk
    ensures x / chunk == b
  {
    B.DivIs(x, chunk, b);
  }

  // A range selects this coordinate.
  ghost predicate Selected(range: Range, x: nat) {
    exists k: nat :: k < range.count && ElementOf(range, k) == x
  }

  lemma SelectedThere(range: Range, axis: Axis, covering: Range, k: nat)
    requires Fits(range, axis) && k < range.count && covering.stride == 1
    requires covering.start <= range.start && LastOf(range) < covering.start + covering.count
    ensures Selected(covering, ElementOf(range, k))
  {
    B.MulMono(k, range.count - 1, range.stride);
    var x := ElementOf(range, k);
    assert ElementOf(covering, x - covering.start) == x;
  }

  // The request that covers a run is in that run itself, and selects every element of any plane of it.
  lemma RunOfItsRequest(axes: seq<Axis>, shape: seq<nat>, plane: ReadRequest, covering: ReadRequest, run: Run)
    requires Serves(axes, plane) && IsRunOf(run, shape, plane) && IsRunRequest(covering, axes, shape, run)
    ensures Serves(axes, covering) && IsRunOf(run, shape, covering)
    ensures forall i, k: nat :: 0 <= i < |axes| && k < plane[i].count ==>
              Selected(covering[i], ElementOf(plane[i], k))
  {
    hide ChunkAt, Covering, Fits, LastOf, Selected, ElementOf;
    forall i | 0 <= i < |axes|
      ensures ServesAxis(axes, covering, i)
      ensures ChunkAt(covering[i].start, AlongAxis(shape, i)) == run.first[i]
      ensures ChunkAt(LastOf(covering[i]), AlongAxis(shape, i)) == run.last[i]
      ensures forall k: nat :: k < plane[i].count ==> Selected(covering[i], ElementOf(plane[i], k))
    {
      assert ServesAxis(axes, plane, i);
      CoversAxis(plane[i], axes[i], AlongAxis(shape, i), covering[i]);
      StepsByOne(covering[i], axes[i].length, AlongAxis(shape, i), run.first[i], run.last[i]);
      forall k: nat | k < plane[i].count ensures Selected(covering[i], ElementOf(plane[i], k)) {
        SelectedThere(plane[i], axes[i], covering[i], k);
      }
    }
  }

  // ---- What a run holds ----

  // Chunks along one axis, a single one when it is not chunked.
  function ChunksAlong(length: nat, chunk: nat): nat {
    if chunk == 0 then 1 else B.Max(1, (length + chunk - 1) / chunk)
  }

  // The chunks a request decodes along an axis.
  ghost function ChunksRead(range: Range, chunk: nat): nat {
    if chunk == 0 then 1 else B.ChunksTouched(range.start, range.count, range.stride, chunk)
  }

  ghost function ChunksReadEach(request: ReadRequest, shape: seq<nat>): (n: seq<nat>)
    ensures |n| == |request|
  {
    seq(|request|, i requires 0 <= i < |request| => ChunksRead(request[i], AlongAxis(shape, i)))
  }

  // The bytes of pixels a request decodes, and of flag.
  ghost function PixelBytes(request: ReadRequest, shape: seq<nat>, elementBytes: nat): nat {
    Product(ChunksReadEach(request, shape)) * B.Max(1, Product(Extents(shape)) * elementBytes)
  }

  ghost function FlagBytes(request: ReadRequest, flag: seq<nat>): nat {
    Product(ChunksReadEach(request, flag)) * Product(Extents(flag))
  }

  // The whole of an image along two axes, and one element along every other.
  ghost predicate WholePlane(axes: seq<Axis>, x: nat, y: nat, plane: ReadRequest) {
    && Serves(axes, plane)
    && forall i :: 0 <= i < |axes| ==>
         if i == x || i == y then plane[i] == Range(0, axes[i].length, 1) else plane[i].count == 1
  }

  // At most this much decodes along an axis.
  ghost predicate AtMostAlong(axes: seq<Axis>, x: nat, y: nat, shape: seq<nat>, flag: seq<nat>, axis: nat, most: nat)
    requires axis < |axes|
  {
    forall plane: ReadRequest, covering: ReadRequest, run: Run ::
      WholePlane(axes, x, y, plane) && IsRunOf(run, shape, plane) && IsRunRequest(covering, axes, shape, run) ==>
        ChunksRead(covering[axis], AlongAxis(flag, axis)) <= most
  }

  // Along a spatial axis of the plane, all the chunks there are.
  lemma WholeAxisChunks(length: nat, chunk: nat, covering: Range, pixelChunk: nat)
    requires length > 0
    requires Covering(covering, length, pixelChunk, ChunkAt(0, pixelChunk), ChunkAt(length - 1, pixelChunk))
    ensures covering == Range(0, length, 1)
    ensures ChunksRead(covering, chunk) == ChunksAlong(length, chunk)
  {
    if pixelChunk > 0 {
      B.AtOrPast((length - 1) / pixelChunk + 1, length - 1, pixelChunk);
    }
    if chunk > 0 {
      var q := (length - 1) / chunk;
      B.DivIs(length - 1, chunk, q);
      Rounded(q, chunk, length);
    }
  }

  lemma Rounded(q: nat, chunk: nat, length: nat)
    requires chunk > 0 && length > 0 && q * chunk <= length - 1 < (q + 1) * chunk
    ensures (length + chunk - 1) / chunk == q + 1
  {
    assert (q + 1) * chunk <= length + chunk - 1 < (q + 2) * chunk;
    B.DivIs(length + chunk - 1, chunk, q + 1);
  }

  // Along any other, what lies across the one pixel chunk the plane is in.
  lemma OneElementChunks(axis: Axis, range: Range, pixelChunk: nat, flagChunk: nat, covering: Range)
    requires Fits(range, axis) && range.count == 1
    requires Covering(covering, axis.length, pixelChunk, ChunkAt(range.start, pixelChunk),
                      ChunkAt(LastOf(range), pixelChunk))
    ensures InPixelChunk(covering.start, covering.start + covering.count, axis.length, pixelChunk)
    ensures ChunksRead(covering, flagChunk) == FlagAlong(covering.start, covering.start + covering.count, flagChunk)
    ensures ChunksRead(covering, pixelChunk) == 1
  {
    CoversAxis(range, axis, pixelChunk, covering);
    assert LastOf(covering) == covering.start + covering.count - 1;
    TouchedAcross(covering, flagChunk);
    TouchedAcross(covering, pixelChunk);
  }

  lemma TouchedAcross(covering: Range, chunk: nat)
    requires covering.count > 0 && covering.stride == 1
    ensures ChunksRead(covering, chunk) == FlagAlong(covering.start, covering.start + covering.count, chunk)
  {
    if chunk == 1 { B.DivIs(covering.start, 1, covering.start); B.DivIs(LastOf(covering), 1, LastOf(covering)); }
  }

  lemma SpatialAtMost(axes: seq<Axis>, x: nat, y: nat, shape: seq<nat>, flag: seq<nat>, axis: nat)
    requires axis < |axes| && (axis == x || axis == y)
    ensures AtMostAlong(axes, x, y, shape, flag, axis, ChunksAlong(axes[axis].length, AlongAxis(flag, axis)))
  {
    hide Covering, ChunkAt, ChunksAlong, ChunksRead, Fits;
    forall plane: ReadRequest, covering: ReadRequest, run: Run
      | WholePlane(axes, x, y, plane) && IsRunOf(run, shape, plane) && IsRunRequest(covering, axes, shape, run)
      ensures ChunksRead(covering[axis], AlongAxis(flag, axis)) <= ChunksAlong(axes[axis].length, AlongAxis(flag, axis))
    {
      assert ServesAxis(axes, plane, axis);
      NonEmpty(plane[axis], axes[axis]);
      WholeAxisChunks(axes[axis].length, AlongAxis(flag, axis), covering[axis], AlongAxis(shape, axis));
    }
  }

  lemma NonEmpty(range: Range, axis: Axis)
    requires Fits(range, axis)
    ensures axis.length > 0 && (range == Range(0, axis.length, 1) ==> LastOf(range) == axis.length - 1)
  {}

  lemma OtherAtMost(axes: seq<Axis>, x: nat, y: nat, shape: seq<nat>, flag: seq<nat>, axis: nat, most: nat)
    requires axis < |axes| && axis != x && axis != y && most >= 1
    requires AlongAxis(flag, axis) > 0 && axes[axis].length > 0 ==>
               MostAcross(most, axes[axis].length, ChunkStep(axes[axis].length, AlongAxis(shape, axis)),
                          AlongAxis(flag, axis))
    ensures AtMostAlong(axes, x, y, shape, flag, axis, most)
  {
    hide Covering, ChunkAt, ChunksRead, Fits, MostAcross, FlagAlong, InPixelChunk;
    forall plane: ReadRequest, covering: ReadRequest, run: Run
      | WholePlane(axes, x, y, plane) && IsRunOf(run, shape, plane) && IsRunRequest(covering, axes, shape, run)
      ensures ChunksRead(covering[axis], AlongAxis(flag, axis)) <= most
    {
      assert ServesAxis(axes, plane, axis);
      NonEmpty(plane[axis], axes[axis]);
      OneElementChunks(axes[axis], plane[axis], AlongAxis(shape, axis), AlongAxis(flag, axis), covering[axis]);
      AcrossAtMost(covering[axis].start, covering[axis].start + covering[axis].count, axes[axis].length,
                   AlongAxis(shape, axis), AlongAxis(flag, axis), most);
    }
  }

  lemma PlaneChunks(axes: seq<Axis>, x: nat, y: nat, plane: ReadRequest, shape: seq<nat>, run: Run,
                    covering: ReadRequest)
    requires x < |axes| && y < |axes| && x != y && WholePlane(axes, x, y, plane)
    requires IsRunOf(run, shape, plane) && IsRunRequest(covering, axes, shape, run)
    ensures Product(ChunksReadEach(covering, shape))
         == ChunksAlong(axes[x].length, AlongAxis(shape, x)) * ChunksAlong(axes[y].length, AlongAxis(shape, y))
  {
    hide Covering, ChunkAt, ChunksAlong, ChunksRead, Fits, Product, FlagAlong, InPixelChunk;
    var n := ChunksReadEach(covering, shape);
    forall i | 0 <= i < |axes|
      ensures n[i] == if i == x || i == y then ChunksAlong(axes[i].length, AlongAxis(shape, i)) else 1
    {
      var pixelChunk := AlongAxis(shape, i);
      assert ServesAxis(axes, plane, i);
      NonEmpty(plane[i], axes[i]);
      if i == x || i == y {
        WholeAxisChunks(axes[i].length, pixelChunk, covering[i], pixelChunk);
      } else {
        OneElementChunks(axes[i], plane[i], pixelChunk, pixelChunk, covering[i]);
      }
    }
    ProductOfTwo(n, x, y);
  }

  lemma {:induction false} ProductOfTwo(n: seq<nat>, x: nat, y: nat)
    requires x < |n| && y < |n| && x != y && forall i :: 0 <= i < |n| && i != x && i != y ==> n[i] == 1
    ensures Product(n) == n[x] * n[y]
    decreases |n|
  {
    var l := |n| - 1;
    if x == l {
      ProductOfSome(n[..l], y);
    } else if y == l {
      ProductOfSome(n[..l], x);
    } else {
      ProductOfTwo(n[..l], x, y);
    }
  }

  lemma {:induction false} ProductOfSome(n: seq<nat>, x: nat)
    requires x < |n| && forall i :: 0 <= i < |n| && i != x ==> n[i] == 1
    ensures Product(n) == n[x]
    decreases |n|
  {
    var l := |n| - 1;
    if x == l { ProductOfOnes(n[..l]); } else { ProductOfSome(n[..l], x); }
  }

  // How many chunks of the flag any run of a whole plane reads at most.
  method PlaneFlagChunks(axes: seq<Axis>, x: nat, y: nat, shape: seq<nat>, flag: seq<nat>)
    returns (flagChunks: nat, ghost mosts: seq<nat>)
    requires x < |axes| && y < |axes| && x != y
    ensures |mosts| == |axes| && flagChunks == Product(mosts)
    ensures forall i :: 0 <= i < |axes| ==> AtMostAlong(axes, x, y, shape, flag, i, mosts[i])
  {
    hide Product, ChunksAlong, AtMostAlong, MostAcross, Extents, WholePlane;
    flagChunks, mosts := 1, [];
    EmptyProduct();
    for axis := 0 to |axes|
      invariant |mosts| == axis && flagChunks == Product(mosts)
      invariant forall i :: 0 <= i < axis ==> AtMostAlong(axes, x, y, shape, flag, i, mosts[i])
    {
      var length, flagChunk, most := axes[axis].length, AlongAxis(flag, axis), 1;
      if axis == x || axis == y {
        most := ChunksAlong(length, flagChunk);
        SpatialAtMost(axes, x, y, shape, flag, axis);
      } else {
        most := FlagChunksAcross(length, AlongAxis(shape, axis), flagChunk);
        OtherAtMost(axes, x, y, shape, flag, axis, most);
      }
      flagChunks := flagChunks * most;
      ProductOnto(mosts, most);
      mosts := mosts + [most];
    }
  }

  ghost function PlanePixels(axes: seq<Axis>, x: nat, y: nat, shape: seq<nat>, elementBytes: nat): nat
    requires x < |axes| && y < |axes|
  {
    ChunksAlong(axes[x].length, AlongAxis(shape, x)) * ChunksAlong(axes[y].length, AlongAxis(shape, y))
    * B.Max(1, Product(Extents(shape)) * elementBytes)
  }

  ghost function PlaneFlags(mosts: seq<nat>, flag: seq<nat>): nat {
    Product(mosts) * Product(Extents(flag))
  }

  method PlanePixelBytes(axes: seq<Axis>, x: nat, y: nat, shape: seq<nat>, elementBytes: nat) returns (bytes: nat)
    requires x < |axes| && y < |axes|
    ensures bytes == PlanePixels(axes, x, y, shape, elementBytes)
  {
    hide Product, ChunksAlong, Extents;
    var chunks := ChunksAlong(axes[x].length, AlongAxis(shape, x)) * ChunksAlong(axes[y].length, AlongAxis(shape, y));
    var chunkBytes := DecodedChunkBytes(shape, elementBytes);
    bytes := chunks * chunkBytes;
  }

  method PlaneFlagBytes(axes: seq<Axis>, x: nat, y: nat, shape: seq<nat>, flag: seq<nat>)
    returns (bytes: nat, ghost mosts: seq<nat>)
    requires x < |axes| && y < |axes| && x != y
    ensures |mosts| == |axes| && bytes == PlaneFlags(mosts, flag)
    ensures forall i :: 0 <= i < |axes| ==> AtMostAlong(axes, x, y, shape, flag, i, mosts[i])
  {
    hide Product, Extents, AtMostAlong;
    var flagChunks;
    flagChunks, mosts := PlaneFlagChunks(axes, x, y, shape, flag);
    var flagElements := ChunkElements(flag);
    bytes := flagChunks * flagElements;
  }

  // Bytes enough for any run of a whole plane of the image, pixels and flag, however the flag is chunked
  // against them; zero without both spatial axes.
  method PlaneRunBytes(axes: seq<Axis>, x: Option<nat>, y: Option<nat>, shape: seq<nat>, flagShape: seq<nat>,
                       elementBytes: nat, applyMask: bool)
    returns (bytes: nat)
    requires x.Some? && y.Some? ==> x.value < |axes| && y.value < |axes| && x.value != y.value
    ensures x.None? || y.None? ==> bytes == 0
    ensures x.Some? && y.Some? ==>
              Holds(axes, x.value, y.value, shape, FlagShape(shape, flagShape), elementBytes, applyMask, bytes)
  {
    if x.None? || y.None? {
      return 0;
    }
    hide *;
    var pixels := PlanePixelBytes(axes, x.value, y.value, shape, elementBytes);
    var flag := FlagShape(shape, flagShape);
    bytes := pixels;
    var flags := 0;
    ghost var mosts: seq<nat> := [];
    if applyMask {
      flags, mosts := PlaneFlagBytes(axes, x.value, y.value, shape, flag);
      bytes := pixels + flags;
    }
    ItHolds(axes, x.value, y.value, shape, flag, elementBytes, applyMask, mosts, pixels, flags);
  }

  // No run of a whole plane decodes more.
  ghost predicate Holds(axes: seq<Axis>, x: nat, y: nat, shape: seq<nat>, flag: seq<nat>, elementBytes: nat,
                        applyMask: bool, bytes: nat)
  {
    forall plane: ReadRequest, covering: ReadRequest, run: Run ::
      WholePlane(axes, x, y, plane) && IsRunOf(run, shape, plane) && IsRunRequest(covering, axes, shape, run) ==>
        PixelBytes(covering, shape, elementBytes) + (if applyMask then FlagBytes(covering, flag) else 0) <= bytes
  }

  lemma ItHolds(axes: seq<Axis>, x: nat, y: nat, shape: seq<nat>, flag: seq<nat>, elementBytes: nat, applyMask: bool,
                mosts: seq<nat>, pixels: nat, flags: nat)
    requires x < |axes| && y < |axes| && x != y
    requires pixels == PlanePixels(axes, x, y, shape, elementBytes)
    requires applyMask ==> |mosts| == |axes| && flags == PlaneFlags(mosts, flag)
    requires applyMask ==> forall i :: 0 <= i < |axes| ==> AtMostAlong(axes, x, y, shape, flag, i, mosts[i])
    ensures Holds(axes, x, y, shape, flag, elementBytes, applyMask, pixels + if applyMask then flags else 0)
  {
    hide Product, ChunksAlong, Extents, ChunksRead, WholePlane, IsRunOf, Covering;
    forall plane: ReadRequest, covering: ReadRequest, run: Run
      | WholePlane(axes, x, y, plane) && IsRunOf(run, shape, plane) && IsRunRequest(covering, axes, shape, run)
      ensures PixelBytes(covering, shape, elementBytes) == pixels
      ensures applyMask ==> FlagBytes(covering, flag) <= flags
    {
      PlaneChunks(axes, x, y, plane, shape, run, covering);
      if applyMask {
        assert forall i :: 0 <= i < |axes| ==> ChunksReadEach(covering, flag)[i] <= mosts[i];
        ProductMono(ChunksReadEach(covering, flag), mosts);
        B.MulMono(Product(ChunksReadEach(covering, flag)), Product(mosts), Product(Extents(flag)));
      }
    }
  }
}
