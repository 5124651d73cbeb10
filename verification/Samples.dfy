// One element of every chunk a request touches, and a request cut into pieces of so many elements:
// OneElementPerChunk, src/read/pieces.cc, and ForEachPiece, src/read/pieces_read.cc.

module Samples {
  import opened PixelSelections
  import opened Pieces
  import B = ChunkBlocks
  import opened ReadCosts

  ghost predicate Selecting(request: ReadRequest) {
    forall i :: 0 <= i < |request| ==> request[i].count > 0 && request[i].stride > 0
  }

  // ---- One element per chunk ----

  // With steps shorter than a chunk, one element for each chunk from the first touched to the last; with
  // longer ones the range as it is, since no two elements of it share a chunk.
  function SampledRange(range: Range, chunk: nat): Range
    requires range.count > 0
  {
    if chunk == 0 || range.stride >= chunk then range
    else
      var first, last := range.start / chunk, (range.start + (range.count - 1) * range.stride) / chunk;
      B.DivMono(range.start, range.start + (range.count - 1) * range.stride, chunk);
      Range(first * chunk, last - first + 1, chunk)
  }

  ghost predicate IsSample(sample: ReadRequest, request: ReadRequest, shape: seq<nat>) {
    && |sample| == |request|
    && forall i :: 0 <= i < |request| ==>
         request[i].count > 0 && sample[i] == SampledRange(request[i], AlongAxis(shape, i))
  }

  method OneElementPerChunk(shape: seq<nat>, request: ReadRequest) returns (sample: ReadRequest)
    requires Selecting(request)
    ensures IsSample(sample, request, shape)
  {
    hide SampledRange;
    sample := request;
    for axis := 0 to |request|
      invariant |sample| == |request|
      invariant forall i :: 0 <= i < |request| ==>
                  sample[i] == if i < axis then SampledRange(request[i], AlongAxis(shape, i)) else request[i]
    {
      sample := sample[axis := SampledRange(request[axis], AlongAxis(shape, axis))];
    }
  }

  // Some selected element lies in chunk c.
  ghost predicate Touches(range: Range, chunk: nat, c: nat)
    requires chunk > 0
  {
    exists i: nat :: i < range.count && B.ChunkOf(i, range.start, range.stride, chunk) == c
  }

  // Chunks between the first and the last are all touched by steps of less than a chunk.
  lemma {:induction false} TouchedBetween(range: Range, chunk: nat, c: nat, n: nat)
    requires 0 < range.stride < chunk && n < range.count
    requires range.start / chunk <= c <= B.ChunkOf(n, range.start, range.stride, chunk)
    ensures Touches(range, chunk, c)
    decreases n
  {
    var last := B.ChunkOf(n, range.start, range.stride, chunk);
    if c < last {
      assert n > 0;
      assert range.start + n * range.stride == range.start + (n - 1) * range.stride + range.stride;
      B.DivStep(range.start + (n - 1) * range.stride, range.stride, chunk);
      TouchedBetween(range, chunk, c, n - 1);
    }
  }

  lemma SampleChunk(first: nat, i: nat, chunk: nat)
    requires chunk > 0
    ensures B.ChunkOf(i, first * chunk, chunk, chunk) == first + i
  {
    assert first * chunk + i * chunk == (first + i) * chunk;
    B.DivMod(first + i, 0, chunk);
  }

  // The sample touches the chunks its range does, and no others.
  lemma SampleTouches(range: Range, chunk: nat, c: nat)
    requires range.count > 0 && range.stride > 0 && chunk > 0
    ensures Touches(SampledRange(range, chunk), chunk, c) <==> Touches(range, chunk, c)
  {
    if range.stride < chunk {
      var first := range.start / chunk;
      var last := B.ChunkOf(range.count - 1, range.start, range.stride, chunk);
      var sample := SampledRange(range, chunk);
      if Touches(sample, chunk, c) {
        var i: nat :| i < sample.count && B.ChunkOf(i, sample.start, sample.stride, chunk) == c;
        SampleChunk(first, i, chunk);
        TouchedBetween(range, chunk, c, range.count - 1);
      }
      if Touches(range, chunk, c) {
        var i: nat :| i < range.count && B.ChunkOf(i, range.start, range.stride, chunk) == c;
        B.ChunkOfMono(0, i, range.start, range.stride, chunk);
        B.ChunkOfMono(i, range.count - 1, range.start, range.stride, chunk);
        SampleChunk(first, c - first, chunk);
        assert c - first < sample.count;
      }
    }
  }

  // And each of them once.
  lemma SampleTouchesOnce(range: Range, chunk: nat, i: nat, j: nat)
    requires range.count > 0 && range.stride > 0 && chunk > 0 && i < j
    ensures var sample := SampledRange(range, chunk);
            B.ChunkOf(i, sample.start, sample.stride, chunk) < B.ChunkOf(j, sample.start, sample.stride, chunk)
  {
    var sample := SampledRange(range, chunk);
    hide SampledRange;
    StepsByChunks(range, chunk);
    hide *;
    ChunkAfterChunk(sample.start, sample.stride, chunk, j - 1);
    B.ChunkOfMono(i, j - 1, sample.start, sample.stride, chunk);
  }

  lemma StepsByChunks(range: Range, chunk: nat)
    requires range.count > 0
    ensures SampledRange(range, chunk).stride >= chunk
  {}

  lemma ChunkAfterChunk(start: nat, stride: nat, chunk: nat, i: nat)
    requires stride >= chunk > 0
    ensures B.ChunkOf(i, start, stride, chunk) < B.ChunkOf(i + 1, start, stride, chunk)
  {
    StepAlong(start, i, 1, stride);
    B.DivStep(start + i * stride, stride, chunk);
  }

  lemma SampleCounts(range: Range, chunk: nat)
    requires range.count > 0 && range.stride > 0
    ensures SampledRange(range, chunk).count == B.ChunksTouched(range.start, range.count, range.stride, chunk)
    ensures 0 < SampledRange(range, chunk).count <= range.count && SampledRange(range, chunk).stride > 0
  {
    if 0 < chunk && range.stride < chunk { ChunksAtMost(range, chunk, range.count - 1); }
  }

  lemma {:induction false} ChunksAtMost(range: Range, chunk: nat, n: nat)
    requires 0 < range.stride < chunk
    ensures range.start / chunk <= B.ChunkOf(n, range.start, range.stride, chunk) <= range.start / chunk + n
  {
    if n > 0 {
      ChunksAtMost(range, chunk, n - 1);
      assert range.start + n * range.stride == range.start + (n - 1) * range.stride + range.stride;
      B.DivStep(range.start + (n - 1) * range.stride, range.stride, chunk);
    }
  }

  // It asks for nothing past the last element its range asks for.
  lemma SampleFits(range: Range, chunk: nat, axis: Axis)
    requires Fits(range, axis)
    ensures Fits(SampledRange(range, chunk), axis)
  {
    if 0 < chunk && range.stride < chunk {
      var last := range.start + (range.count - 1) * range.stride;
      var sample := SampledRange(range, chunk);
      SampleCounts(range, chunk);
      assert sample.start + (sample.count - 1) * chunk == last / chunk * chunk by {
        StepAlong(0, range.start / chunk, sample.count - 1, chunk);
      }
      B.AtOrPast(last / chunk, last, chunk);
    }
  }

  // ---- Over every axis ----

  // Element k of a request lies in the chunk with index c[i] along each axis i.
  ghost predicate InChunk(request: ReadRequest, shape: seq<nat>, k: seq<nat>, c: seq<nat>)
    requires |request| == |shape| == |k| == |c| && forall i :: 0 <= i < |shape| ==> shape[i] > 0
  {
    forall i :: 0 <= i < |request| ==> B.ChunkOf(k[i], request[i].start, request[i].stride, shape[i]) == c[i]
  }

  ghost predicate TouchesChunk(request: ReadRequest, shape: seq<nat>, c: seq<nat>)
    requires |request| == |shape| == |c| && forall i :: 0 <= i < |shape| ==> shape[i] > 0
  {
    exists k :: IsElementIn(request, shape, k, c)
  }

  ghost predicate IsElementIn(request: ReadRequest, shape: seq<nat>, k: seq<nat>, c: seq<nat>)
    requires |request| == |shape| == |c| && forall i :: 0 <= i < |shape| ==> shape[i] > 0
  {
    Inside(Counts(request), k) && InChunk(request, shape, k, c)
  }

  // A chunk is touched exactly when it is along every axis.
  lemma TouchedAlongEach(request: ReadRequest, shape: seq<nat>, c: seq<nat>)
    requires |request| == |shape| == |c| && forall i :: 0 <= i < |shape| ==> shape[i] > 0
    ensures TouchesChunk(request, shape, c) <==> forall i :: 0 <= i < |shape| ==> Touches(request[i], shape[i], c[i])
  {
    hide B.ChunkOf;
    if TouchesChunk(request, shape, c) {
      var k :| IsElementIn(request, shape, k, c);
      forall i | 0 <= i < |shape| ensures Touches(request[i], shape[i], c[i]) {
        assert k[i] < Counts(request)[i] && B.ChunkOf(k[i], request[i].start, request[i].stride, shape[i]) == c[i];
      }
    }
    if forall i :: 0 <= i < |shape| ==> Touches(request[i], shape[i], c[i]) {
      var k := TouchingElement(request, shape, c, |shape|);
      assert IsElementIn(request, shape, k, c);
    }
  }

  lemma {:induction false} TouchingElement(request: ReadRequest, shape: seq<nat>, c: seq<nat>, n: nat)
    returns (k: seq<nat>)
    requires |request| == |shape| == |c| && n <= |shape| && forall i :: 0 <= i < |shape| ==> shape[i] > 0
    requires forall i :: 0 <= i < n ==> Touches(request[i], shape[i], c[i])
    ensures |k| == n && forall i :: 0 <= i < n ==>
              k[i] < request[i].count && B.ChunkOf(k[i], request[i].start, request[i].stride, shape[i]) == c[i]
  {
    hide B.ChunkOf;
    k := [];
    if n > 0 {
      var rest := TouchingElement(request, shape, c, n - 1);
      assert Touches(request[n - 1], shape[n - 1], c[n - 1]);
      var i: nat :| i < request[n - 1].count
                    && B.ChunkOf(i, request[n - 1].start, request[n - 1].stride, shape[n - 1]) == c[n - 1];
      k := rest + [i];
    }
  }

  // The sample has exactly one element in every chunk the request touches, and none in any other.
  lemma OneInEachChunk(request: ReadRequest, sample: ReadRequest, shape: seq<nat>, c: seq<nat>)
    requires Selecting(request) && IsSample(sample, request, shape)
    requires |request| == |shape| == |c| && forall i :: 0 <= i < |shape| ==> shape[i] > 0
    ensures TouchesChunk(sample, shape, c) <==> TouchesChunk(request, shape, c)
    ensures forall k, k' :: IsElementIn(sample, shape, k, c) && IsElementIn(sample, shape, k', c) ==> k == k'
  {
    hide B.ChunkOf, Touches, SampledRange;
    TouchedAlongEach(request, shape, c);
    TouchedAlongEach(sample, shape, c);
    forall i | 0 <= i < |shape|
      ensures Touches(sample[i], shape[i], c[i]) <==> Touches(request[i], shape[i], c[i])
    {
      SampleTouches(request[i], shape[i], c[i]);
    }
    forall k, k' | IsElementIn(sample, shape, k, c) && IsElementIn(sample, shape, k', c) ensures k == k'
    {
      forall i | 0 <= i < |shape| ensures k[i] == k'[i] {
        if k[i] < k'[i] { SampleTouchesOnce(request[i], shape[i], k[i], k'[i]); }
        if k'[i] < k[i] { SampleTouchesOnce(request[i], shape[i], k'[i], k[i]); }
      }
    }
  }

  // How many chunks a request touches.
  ghost function ChunksOf(request: ReadRequest, shape: seq<nat>): nat {
    Product(seq(|request|, i requires 0 <= i < |request| =>
      B.ChunksTouched(request[i].start, request[i].count, request[i].stride, AlongAxis(shape, i))))
  }

  lemma SampleIsChunks(request: ReadRequest, sample: ReadRequest, shape: seq<nat>)
    requires Selecting(request) && IsSample(sample, request, shape)
    ensures Product(Counts(sample)) == ChunksOf(request, shape) && Selecting(sample)
    ensures Product(Counts(sample)) <= Product(Counts(request))
  {
    hide Product, SampledRange, B.ChunksTouched;
    forall i | 0 <= i < |request|
      ensures 0 < sample[i].count <= request[i].count && sample[i].stride > 0
      ensures sample[i].count == B.ChunksTouched(request[i].start, request[i].count, request[i].stride,
                                                 AlongAxis(shape, i))
    {
      SampleCounts(request[i], AlongAxis(shape, i));
    }
    assert Counts(sample) == seq(|request|, i requires 0 <= i < |request| =>
      B.ChunksTouched(request[i].start, request[i].count, request[i].stride, AlongAxis(shape, i)));
    ProductMono(Counts(sample), Counts(request));
  }

  lemma SampleServes(axes: seq<Axis>, request: ReadRequest, sample: ReadRequest, shape: seq<nat>)
    requires Serves(axes, request) && IsSample(sample, request, shape)
    ensures Serves(axes, sample)
  {
    hide SampledRange, Fits;
    forall i | 0 <= i < |axes| ensures ServesAxis(axes, sample, i) {
      assert ServesAxis(axes, request, i);
      SampleFits(request[i], AlongAxis(shape, i), axes[i]);
    }
  }

  // ---- So many elements at a time ----

  // Where an element comes when the last axis is fastest.
  ghost function Ordinal(n: seq<nat>, c: seq<nat>): nat
    requires |c| == |n|
  {
    if n == [] then 0 else Ordinal(n[..|n| - 1], c[..|n| - 1]) * n[|n| - 1] + c[|n| - 1]
  }

  lemma {:induction false} OrdinalBelow(n: seq<nat>, c: seq<nat>)
    requires Inside(n, c)
    ensures Ordinal(n, c) < Product(n)
  {
    if n != [] {
      var l := |n| - 1;
      OrdinalBelow(n[..l], c[..l]);
      Digits(c[l], Ordinal(n[..l], c[..l]), n[l], Product(n[..l]));
    }
  }

  lemma {:induction false} OneOrdinalEach(n: seq<nat>, c: seq<nat>, d: seq<nat>)
    requires Inside(n, c) && Inside(n, d) && Ordinal(n, c) == Ordinal(n, d)
    ensures c == d
  {
    if n != [] {
      var l := |n| - 1;
      B.DivMod(Ordinal(n[..l], c[..l]), c[l], n[l]);
      B.DivMod(Ordinal(n[..l], d[..l]), d[l], n[l]);
      OneOrdinalEach(n[..l], c[..l], d[..l]);
      assert c == c[..l] + [c[l]] && d == d[..l] + [d[l]];
    }
  }

  // The odometer has turned over every axis from `axis` on.
  ghost predicate Turned(n: seq<nat>, before: seq<nat>, after: seq<nat>, axis: nat) {
    && |before| == |after| == |n| && axis <= |n|
    && (forall j :: 0 <= j < axis ==> after[j] == before[j])
    && (forall j :: axis <= j < |n| ==> before[j] + 1 == n[j] && after[j] == 0)
  }

  // One axis more turns on, and the count is one more.
  lemma {:induction false} TurnedOn(n: seq<nat>, before: seq<nat>, after: seq<nat>, axis: nat)
    requires |before| == |after| == |n| && axis < |n| && Turned(n, before, after[axis := before[axis]], axis + 1)
    requires after[axis] == before[axis] + 1
    ensures Ordinal(n, after) == Ordinal(n, before) + 1
    decreases |n|
  {
    var l := |n| - 1;
    if axis == l {
      assert after[..l] == before[..l];
    } else {
      assert after[..l][axis := before[axis]] == after[axis := before[axis]][..l];
      TurnedOn(n[..l], before[..l], after[..l], axis);
      Carry(Ordinal(n[..l], before[..l]), n[l]);
    }
  }

  lemma Carry(low: nat, n: nat)
    requires n > 0
    ensures (low + 1) * n == low * n + (n - 1) + 1
  {}

  // Turned over everywhere, it stood at the last.
  lemma {:induction false} TurnedOver(n: seq<nat>, before: seq<nat>, after: seq<nat>)
    requires Turned(n, before, after, 0)
    ensures Ordinal(n, before) + 1 == Product(n)
    ensures Ordinal(n, after) == 0
    decreases |n|
  {
    if n != [] {
      var l := |n| - 1;
      TurnedOver(n[..l], before[..l], after[..l]);
      Carry(Ordinal(n[..l], before[..l]), n[l]);
      Swapped(Product(n[..l]), n[l]);
    }
  }

  lemma Swapped(a: nat, b: nat)
    ensures a * b == b * a
  {}

  // The next element of these axes, the last of them fastest, or none.
  method Advance(n: seq<nat>, at: seq<nat>) returns (next: seq<nat>, more: bool)
    requires Inside(n, at)
    ensures more <==> Ordinal(n, at) + 1 < Product(n)
    ensures more ==> Inside(n, next) && Ordinal(n, next) == Ordinal(n, at) + 1
    ensures !more ==> Ordinal(n, at) + 1 == Product(n)
  {
    hide Ordinal, Product;
    next := at;
    var axis := |n|;
    while axis > 0
      invariant 0 <= axis <= |n| && Turned(n, at, next, axis)
    {
      axis := axis - 1;
      next := next[axis := next[axis] + 1];
      if next[axis] < n[axis] {
        assert next[axis := at[axis]] == next[axis := next[axis] - 1];
        TurnedOn(n, at, next, axis);
        OrdinalBelow(n, next);
        return next, true;
      }
      next := next[axis := 0];
    }
    TurnedOver(n, at, next);
    more := false;
  }

  // A piece selects, of the request, the elements with index corner[i] on along each axis i.
  ghost predicate InBox(piece: ReadRequest, corner: seq<nat>, k: seq<nat>)
    requires |piece| == |corner| == |k|
  {
    forall i :: 0 <= i < |k| ==> corner[i] <= k[i] < corner[i] + piece[i].count
  }

  ghost predicate IsCorner(request: ReadRequest, piece: ReadRequest, corner: seq<nat>) {
    && |piece| == |corner| == |request|
    && forall i :: 0 <= i < |request| ==>
         && piece[i] == Range(request[i].start + corner[i] * request[i].stride, piece[i].count, request[i].stride)
         && corner[i] + piece[i].count <= request[i].count && piece[i].count > 0
  }

  // In the order of the first `width` axes, the last of them fastest, the piece's are [from, to).
  ghost predicate IsSlice(request: ReadRequest, width: nat, piece: ReadRequest, corner: seq<nat>, from: nat, to: nat)
    requires width <= |request|
  {
    && IsCorner(request, piece, corner) && from < to
    && forall k :: Inside(Counts(request), k) ==>
         (InBox(piece, corner, k) <==> from <= Ordinal(Counts(request)[..width], k[..width]) < to)
  }

  // One after another from the first.
  ghost predicate Slices(request: ReadRequest, width: nat, pieces: seq<ReadRequest>, corners: seq<seq<nat>>,
                         cuts: seq<nat>) {
    && width <= |request| && |corners| == |pieces| && |cuts| == |pieces| + 1 && cuts[0] == 0
    && forall i :: 0 <= i < |pieces| ==> IsSlice(request, width, pieces[i], corners[i], cuts[i], cuts[i + 1])
  }

  ghost predicate Sliced(request: ReadRequest, width: nat, pieces: seq<ReadRequest>, corners: seq<seq<nat>>,
                         cuts: seq<nat>) {
    && Slices(request, width, pieces, corners, cuts)
    && cuts[|pieces|] == Product(Counts(request)[..width])
  }

  ghost predicate AtMost(pieces: seq<ReadRequest>, most: nat) {
    forall i :: 0 <= i < |pieces| ==> Product(Counts(pieces[i])) <= most
  }

  // Every element of the request is in exactly one piece.
  lemma EachElementInOnePiece(request: ReadRequest, width: nat, pieces: seq<ReadRequest>, corners: seq<seq<nat>>,
                              cuts: seq<nat>, k: seq<nat>)
    returns (j: nat)
    requires Sliced(request, width, pieces, corners, cuts) && Inside(Counts(request), k)
    ensures j < |pieces| && |pieces[j]| == |corners[j]| == |k| && InBox(pieces[j], corners[j], k)
    ensures forall i :: 0 <= i < |pieces| && i != j ==>
              |pieces[i]| == |corners[i]| == |k| && !InBox(pieces[i], corners[i], k)
  {
    var n := Counts(request);
    OrdinalBelow(n[..width], k[..width]);
    hide Ordinal, Product, InBox;
    var rank := Ordinal(n[..width], k[..width]);
    j := 0;
    while cuts[j + 1] <= rank
      invariant j < |pieces| && cuts[j] <= rank
      decreases |pieces| - j
    {
      j := j + 1;
    }
    forall i: nat | i < |pieces| && i != j
      ensures |pieces[i]| == |corners[i]| == |k| && !InBox(pieces[i], corners[i], k)
    {
      if i < j {
        SlicesAscend(request, width, pieces, corners, cuts, i + 1, j);
      } else {
        SlicesAscend(request, width, pieces, corners, cuts, j + 1, i);
      }
      assert IsSlice(request, width, pieces[i], corners[i], cuts[i], cuts[i + 1]);
    }
    assert IsSlice(request, width, pieces[j], corners[j], cuts[j], cuts[j + 1]);
  }

  lemma {:induction false} SlicesAscend(request: ReadRequest, width: nat, pieces: seq<ReadRequest>,
                                        corners: seq<seq<nat>>, cuts: seq<nat>, i: nat, j: nat)
    requires Slices(request, width, pieces, corners, cuts) && i <= j <= |pieces|
    ensures cuts[i] <= cuts[j]
    decreases j
  {
    if i < j {
      SlicesAscend(request, width, pieces, corners, cuts, i, j - 1);
      assert IsSlice(request, width, pieces[j - 1], corners[j - 1], cuts[j - 1], cuts[j]);
    }
  }

  lemma OneMoreSlice(request: ReadRequest, width: nat, pieces: seq<ReadRequest>, corners: seq<seq<nat>>, cuts: seq<nat>,
                     piece: ReadRequest, corner: seq<nat>, to: nat)
    requires Slices(request, width, pieces, corners, cuts)
    requires IsSlice(request, width, piece, corner, cuts[|pieces|], to)
    ensures Slices(request, width, pieces + [piece], corners + [corner], cuts + [to])
  {
    hide IsSlice;
  }

  lemma NoSlice(request: ReadRequest, width: nat)
    requires width <= |request|
    ensures Slices(request, width, [], [], [0])
  {}

  // The whole request is one.
  lemma WholeSlice(request: ReadRequest)
    requires Selecting(request)
    ensures Sliced(request, |request|, [request], [seq(|request|, _ => 0)], [0, Product(Counts(request))])
  {
    var n: seq<nat>, corner: seq<nat> := Counts(request), seq(|request|, _ => 0);
    assert n[..|request|] == n;
    hide Ordinal, Product;
    forall k | Inside(n, k)
      ensures InBox(request, corner, k) && 0 <= Ordinal(n[..|request|], k[..|request|]) < Product(n) {
      OrdinalBelow(n, k);
      assert k[..|request|] == k;
    }
    assert Inside(n, corner);
    assert Product(n) > 0 by { OrdinalBelow(n, corner); }
  }

  // Every axis before the cut an element at a time, a run of the cut, and the axes after it whole.
  function PieceAt(request: ReadRequest, cut: nat, at: seq<nat>, first: nat, count: nat): (piece: ReadRequest)
    requires |at| == cut < |request|
    ensures |piece| == |request|
  {
    seq(|request|, i requires 0 <= i < |request| =>
      if i < cut then Range(request[i].start + at[i] * request[i].stride, 1, request[i].stride)
      else if i == cut then Range(request[i].start + first * request[i].stride, count, request[i].stride)
      else request[i])
  }

  ghost function CornerAt(request: ReadRequest, cut: nat, at: seq<nat>, first: nat): (corner: seq<nat>)
    requires |at| == cut < |request|
    ensures |corner| == |request|
  {
    seq(|request|, i requires 0 <= i < |request| => if i < cut then at[i] else if i == cut then first else 0)
  }

  lemma PieceIsSlice(request: ReadRequest, cut: nat, at: seq<nat>, first: nat, count: nat, from: nat)
    requires Selecting(request) && cut < |request| && Inside(Counts(request)[..cut], at)
    requires 0 < count && first + count <= request[cut].count
    requires from == Ordinal(Counts(request)[..cut], at) * request[cut].count + first
    ensures IsSlice(request, cut + 1, PieceAt(request, cut, at, first, count), CornerAt(request, cut, at, first), from,
                    from + count)
  {
    var n, piece, corner := Counts(request), PieceAt(request, cut, at, first, count), CornerAt(request, cut, at, first);
    forall k | Inside(n, k)
      ensures InBox(piece, corner, k) <==> from <= Ordinal(n[..cut + 1], k[..cut + 1]) < from + count
    {
      assert n[..cut + 1][..cut] == n[..cut] && k[..cut + 1][..cut] == k[..cut];
      OrdinalStep(n, k, cut);
      BoxIs(request, cut, at, first, count, k);
      hide Ordinal, InBox, PieceAt, CornerAt;
      if k[..cut] != at && from <= Ordinal(n[..cut + 1], k[..cut + 1]) < from + count {
        B.DivMod(Ordinal(n[..cut], k[..cut]), k[cut], n[cut]);
        var within := Ordinal(n[..cut + 1], k[..cut + 1]) - from + first;
        B.DivMod(Ordinal(n[..cut], at), within, n[cut]);
        OneOrdinalEach(n[..cut], k[..cut], at);
      }
    }
    hide InBox, Ordinal;
  }

  lemma OrdinalStep(n: seq<nat>, k: seq<nat>, cut: nat)
    requires |n| == |k| && cut < |n|
    ensures Ordinal(n[..cut + 1], k[..cut + 1]) == Ordinal(n[..cut], k[..cut]) * n[cut] + k[cut]
  {
    assert n[..cut + 1][..cut] == n[..cut] && k[..cut + 1][..cut] == k[..cut];
  }

  lemma BoxIs(request: ReadRequest, cut: nat, at: seq<nat>, first: nat, count: nat, k: seq<nat>)
    requires |at| == cut < |request| && Inside(Counts(request), k)
    ensures InBox(PieceAt(request, cut, at, first, count), CornerAt(request, cut, at, first), k)
       <==> k[..cut] == at && first <= k[cut] < first + count
  {
    var piece, corner := PieceAt(request, cut, at, first, count), CornerAt(request, cut, at, first);
    if InBox(piece, corner, k) {
      forall i | 0 <= i < cut ensures k[i] == at[i] {
        assert corner[i] <= k[i] < corner[i] + piece[i].count;
      }
      assert corner[cut] <= k[cut] < corner[cut] + piece[cut].count;
    }
    if k[..cut] == at && first <= k[cut] < first + count {
      forall i | 0 <= i < |k| ensures corner[i] <= k[i] < corner[i] + piece[i].count {
        if i < cut { assert k[i] == k[..cut][i]; }
      }
    }
  }

  lemma {:induction false} ProductJoins(a: seq<nat>, b: seq<nat>)
    ensures Product(a + b) == Product(a) * Product(b)
    decreases |b|
  {
    if b == [] {
      assert a + b == a;
    } else {
      var l := |b| - 1;
      assert (a + b)[..|a| + l] == a + b[..l];
      ProductJoins(a, b[..l]);
      Grouped(Product(a), Product(b[..l]), b[l]);
    }
  }

  lemma Grouped(a: nat, b: nat, c: nat)
    ensures a * b * c == a * (b * c)
  {}

  lemma ProductOfOne(x: nat)
    ensures Product([x]) == x
  {
    assert [x][..0] == [];
  }

  lemma ProductFirst(s: seq<nat>)
    requires s != []
    ensures Product(s) == s[0] * Product(s[1..])
  {
    hide Product;
    ProductOfOne(s[0]);
    ProductJoins([s[0]], s[1..]);
    assert [s[0]] + s[1..] == s;
  }

  lemma {:induction false} ProductPositive(s: seq<nat>)
    requires forall i :: 0 <= i < |s| ==> s[i] > 0
    ensures Product(s) > 0
  {
    if s != [] { ProductPositive(s[..|s| - 1]); }
  }

  lemma PieceSize(request: ReadRequest, cut: nat, at: seq<nat>, first: nat, count: nat)
    requires |at| == cut < |request|
    ensures Product(Counts(PieceAt(request, cut, at, first, count))) == count * Product(Counts(request)[cut + 1..])
  {
    var m, after := Counts(PieceAt(request, cut, at, first, count)), Counts(request)[cut + 1..];
    assert m == m[..cut] + ([count] + after);
    hide PieceAt, Product;
    ProductOfOnes(m[..cut]);
    ProductJoins(m[..cut], [count] + after);
    ProductFirst([count] + after);
    assert ([count] + after)[1..] == after;
  }

  method Elements(request: ReadRequest) returns (elements: nat)
    ensures elements == Product(Counts(request))
  {
    elements := 1;
    for i := 0 to |request|
      invariant elements == Product(Counts(request)[..i])
    {
      ProductStep(Counts(request), i);
      elements := elements * request[i].count;
    }
    assert Counts(request)[..|request|] == Counts(request);
  }

  // The least axis such that those after it have no more than `most` elements together, and that many.
  method CutAxis(request: ReadRequest, most: nat) returns (cut: nat, inner: nat)
    requires Selecting(request)
    ensures cut <= |request|
    ensures cut < |request| ==> 0 < inner <= most && inner == Product(Counts(request)[cut + 1..])
    ensures most > 0 && request != [] ==> cut < |request|
  {
    hide Product;
    ghost var n := Counts(request);
    cut := 0;
    inner := Elements(request);
    assert n[0..] == n;
    ProductPositive(n);
    while cut < |request|
      invariant cut <= |request| && inner == Product(n[cut..]) > 0
      invariant most > 0 && request != [] ==> cut < |request|
    {
      ProductFirst(n[cut..]);
      assert n[cut..][1..] == n[cut + 1..];
      ProductPositive(n[cut + 1..]);
      B.DivMod(Product(n[cut + 1..]), 0, n[cut]);
      Swapped(n[cut], Product(n[cut + 1..]));
      inner := inner / B.Max(1, request[cut].count);
      if inner <= most {
        break;
      }
      if cut + 1 == |request| { assert n[cut + 1..] == []; NoneLeft(); }
      cut := cut + 1;
    }
  }

  lemma NoneLeft()
    ensures Product([]) == 1
  {}

  // How many of the cut axis's elements one piece runs over.
  lemma RunFits(most: nat, inner: nat, count: nat)
    requires 0 < inner <= most && count <= B.Max(1, most / B.Max(1, inner))
    ensures count * inner <= most
  {
    B.AtOrPast(count, most, inner);
    B.AtOrPast(1, most, inner);
  }

  lemma PieceIsAtMost(request: ReadRequest, cut: nat, at: seq<nat>, first: nat, count: nat, most: nat, inner: nat)
    requires |at| == cut < |request| && inner == Product(Counts(request)[cut + 1..])
    requires 0 < inner <= most && count <= B.Max(1, most / B.Max(1, inner))
    ensures Product(Counts(PieceAt(request, cut, at, first, count))) <= most
  {
    PieceSize(request, cut, at, first, count);
    RunFits(most, inner, count);
  }

  // What comes before the element `first` of a run, in the order of the axes up to the cut.
  ghost function Passed(request: ReadRequest, cut: nat, at: seq<nat>, first: nat): nat
    requires |at| == cut < |request|
  {
    Ordinal(Counts(request)[..cut], at) * request[cut].count + first
  }

  lemma OneMorePieceAt(request: ReadRequest, cut: nat, at: seq<nat>, first: nat, count: nat, most: nat, inner: nat,
                       pieces: seq<ReadRequest>, corners: seq<seq<nat>>, cuts: seq<nat>)
    requires Selecting(request) && cut < |request| && Inside(Counts(request)[..cut], at) && |at| == cut
    requires 0 < count && first + count <= request[cut].count
    requires inner == Product(Counts(request)[cut + 1..]) && 0 < inner <= most
    requires count <= B.Max(1, most / B.Max(1, inner))
    requires Slices(request, cut + 1, pieces, corners, cuts) && AtMost(pieces, most)
    requires |cuts| == |pieces| + 1 && cuts[|pieces|] == Passed(request, cut, at, first)
    ensures var piece := PieceAt(request, cut, at, first, count);
      && Slices(request, cut + 1, pieces + [piece], corners + [CornerAt(request, cut, at, first)],
                cuts + [Passed(request, cut, at, first + count)])
      && AtMost(pieces + [piece], most)
  {
    hide Slices, IsSlice, PieceAt, CornerAt, Product, Ordinal, Inside, Counts;
    var piece, corner := PieceAt(request, cut, at, first, count), CornerAt(request, cut, at, first);
    PieceIsSlice(request, cut, at, first, count, Passed(request, cut, at, first));
    OneMoreSlice(request, cut + 1, pieces, corners, cuts, piece, corner, Passed(request, cut, at, first + count));
    PieceIsAtMost(request, cut, at, first, count, most, inner);
  }

  // One run of pieces: the axes before the cut fixed, the cut axis from its first element to its last.
  method ForEachRun(request: ReadRequest, cut: nat, at: seq<nat>, most: nat, inner: nat, before: seq<ReadRequest>,
                    ghost cornersBefore: seq<seq<nat>>, ghost cutsBefore: seq<nat>)
    returns (pieces: seq<ReadRequest>, ghost corners: seq<seq<nat>>, ghost cuts: seq<nat>)
    requires Selecting(request) && cut < |request| && Inside(Counts(request)[..cut], at) && |at| == cut
    requires inner == Product(Counts(request)[cut + 1..]) && 0 < inner <= most
    requires Slices(request, cut + 1, before, cornersBefore, cutsBefore) && AtMost(before, most)
    requires |cutsBefore| == |before| + 1 && cutsBefore[|before|] == Passed(request, cut, at, 0)
    ensures Slices(request, cut + 1, pieces, corners, cuts) && AtMost(pieces, most)
    ensures |cuts| == |pieces| + 1 && cuts[|pieces|] == Passed(request, cut, at, request[cut].count)
  {
    hide Slices, Passed, PieceAt, CornerAt, Product, Inside, Counts, AtMost, Selecting;
    var run := B.Max(1, most / B.Max(1, inner));
    pieces, corners, cuts := before, cornersBefore, cutsBefore;
    var first := 0;
    while first < request[cut].count
      invariant Slices(request, cut + 1, pieces, corners, cuts) && AtMost(pieces, most) && |cuts| == |pieces| + 1
      invariant cuts[|pieces|] == Passed(request, cut, at, B.Min(first, request[cut].count))
    {
      var count := B.Min(run, request[cut].count - first);
      OneMorePieceAt(request, cut, at, first, count, most, inner, pieces, corners, cuts);
      cuts := cuts + [Passed(request, cut, at, first + count)];
      pieces, corners := pieces + [PieceAt(request, cut, at, first, count)],
          corners + [CornerAt(request, cut, at, first)];
      first := first + run;
    }
  }

  lemma AtFirst(request: ReadRequest, cut: nat, at: seq<nat>)
    requires Selecting(request) && |at| == cut < |request| && forall i :: 0 <= i < cut ==> at[i] == 0
    ensures Inside(Counts(request)[..cut], at) && Passed(request, cut, at, 0) == 0
  {
    OrdinalOfNone(Counts(request)[..cut], at);
  }

  lemma {:induction false} OrdinalOfNone(n: seq<nat>, at: seq<nat>)
    requires |at| == |n| && forall i :: 0 <= i < |n| ==> at[i] == 0
    ensures Ordinal(n, at) == 0
  {
    if n != [] { OrdinalOfNone(n[..|n| - 1], at[..|n| - 1]); }
  }

  // The end of one run is the beginning of the next, and of the last the end of them all.
  lemma RunToRun(request: ReadRequest, cut: nat, at: seq<nat>, next: seq<nat>, more: bool)
    requires |at| == |next| == cut < |request|
    requires if more then Ordinal(Counts(request)[..cut], next) == Ordinal(Counts(request)[..cut], at) + 1
             else Ordinal(Counts(request)[..cut], at) + 1 == Product(Counts(request)[..cut])
    ensures Passed(request, cut, at, request[cut].count)
         == if more then Passed(request, cut, next, 0) else Product(Counts(request)[..cut + 1])
  {
    ProductStep(Counts(request), cut);
    hide Ordinal, Product;
    Distributes(Ordinal(Counts(request)[..cut], at), 1, request[cut].count);
  }

  // Slices of the request that hold no more than `most` elements each, and together all of it.
  method ForEachPiece(request: ReadRequest, most: nat)
    returns (pieces: seq<ReadRequest>, ghost corners: seq<seq<nat>>, ghost cuts: seq<nat>, ghost width: nat)
    requires Selecting(request)
    ensures Sliced(request, width, pieces, corners, cuts)
    ensures most > 0 ==> AtMost(pieces, most)
  {
    hide Slices, Passed, Product, Ordinal, Selecting;
    var cut, inner := CutAxis(request, most);
    if cut == |request| {
      WholeSlice(request);
      NoneLeft();
      return [request], [seq(|request|, _ => 0)], [0, Product(Counts(request))], |request|;
    }
    width := cut + 1;
    pieces, corners, cuts := [], [], [0];
    NoSlice(request, width);
    var n := Counts(request)[..cut];
    var at: seq<nat> := seq(cut, _ => 0);
    AtFirst(request, cut, at);
    var more := true;
    while more
      invariant |at| == cut && |cuts| == |pieces| + 1
      invariant Slices(request, width, pieces, corners, cuts) && AtMost(pieces, most)
      invariant more ==> Inside(n, at) && cuts[|pieces|] == Passed(request, cut, at, 0)
      invariant !more ==> cuts[|pieces|] == Product(Counts(request)[..width])
      decreases more, Product(n) - Ordinal(n, at)
    {
      pieces, corners, cuts := ForEachRun(request, cut, at, most, inner, pieces, corners, cuts);
      var next, onward := Advance(n, at);
      OrdinalBelow(n, at);
      if onward {
        RunToRun(request, cut, at, next, true);
        OrdinalBelow(n, next);
        at := next;
      } else {
        RunToRun(request, cut, at, at, false);
      }
      more := onward;
    }
  }
}
