// An ordinary read cut into pieces: src/read/pieces.cc, and the loop over them of ReadInPieces,
// src/read/pieces_read.cc.

module Pieces {
  import opened Wrappers
  import opened PixelSelections
  import opened ReadCosts
  import opened SlabReads
  import B = ChunkBlocks

  // ---- Planning ----

  type ReadRequest = seq<Range>

  // One read of several: its own request, and the destination index of its first element.
  datatype Piece = Piece(request: ReadRequest, firstElement: nat)

  // The last axis with more than one element selected, if any has.
  method SlowestSelectedAxis(request: ReadRequest) returns (axis: Option<nat>)
    ensures axis.None? <==> forall i :: 0 <= i < |request| ==> request[i].count <= 1
    ensures axis.Some? ==>
              axis.value < |request| && request[axis.value].count > 1
              && forall i :: axis.value < i < |request| ==> request[i].count <= 1
  {
    var i := |request|;
    while i > 0
      invariant 0 <= i <= |request| && forall j :: i <= j < |request| ==> request[j].count <= 1
    {
      i := i - 1;
      if request[i].count > 1 {
        return Some(i);
      }
    }
    axis := None;
  }

  // ---- What a piece may decode ----

  // Along one axis, the number of chunks with a selected element; an unchunked axis counts as a single chunk.
  function AxisChunks(request: ReadRequest, shape: seq<nat>, axis: nat): (chunks: nat)
    requires axis < |request|
    ensures chunks >= 1
  {
    var chunk, range := AlongAxis(shape, axis), request[axis];
    if chunk == 0 then 1 else B.Max(1, B.ChunksTouched(range.start, range.count, range.stride, chunk))
  }

  ghost function AxesChunks(request: ReadRequest, shape: seq<nat>): seq<nat> {
    seq(|request|, i requires 0 <= i < |request| => AxisChunks(request, shape, i))
  }

  // One row of chunks: what the request decodes for each chunk of one of its axes.
  ghost function RowOfChunks(request: ReadRequest, shape: seq<nat>, axis: nat): nat
    requires axis < |request|
  {
    Product(AxesChunks(request, shape)[axis := 1])
  }

  // What a request decodes, in bytes, and what one row of its chunks comes to.
  ghost function DecodedBytes(request: ReadRequest, shape: seq<nat>, chunkBytes: nat): nat {
    chunkBytes * Product(AxesChunks(request, shape))
  }

  ghost function RowBytes(request: ReadRequest, shape: seq<nat>, axis: nat, chunkBytes: nat): nat
    requires axis < |request|
  {
    chunkBytes * RowOfChunks(request, shape, axis)
  }

  // How many such rows a budget affords. At least one.
  function RowsAfforded(rowBytes: nat, budgetBytes: nat): nat {
    B.Max(1, budgetBytes / B.Max(1, rowBytes))
  }

  // The elements of an axis that so many of its chunks hold, or about as many.
  function UnitsOf(chunks: nat, chunk: nat, stride: nat): nat
    requires stride > 0
  {
    if chunk != 0 && stride >= chunk then chunks else B.Max(1, chunks * B.Max(1, chunk) / stride)
  }

  // How many elements of the cut axis one piece should cover.
  method UnitsPerPiece(request: ReadRequest, shape: seq<nat>, axis: nat, chunkBytes: nat, budgetBytes: nat)
    returns (units: nat)
    requires axis < |request|
    ensures units == UnitsOf(RowsAfforded(RowBytes(request, shape, axis, chunkBytes), budgetBytes),
                             AlongAxis(shape, axis), B.Max(1, request[axis].stride))
  {
    var otherChunks := OtherChunks(request, shape, axis);
    hide RowOfChunks;
    var chunks := B.Max(1, budgetBytes / B.Max(1, chunkBytes * otherChunks));
    var chunk := AlongAxis(shape, axis);
    var stride := B.Max(1, request[axis].stride);
    if chunk != 0 && stride >= chunk {
      return chunks;
    }
    units := B.Max(1, chunks * B.Max(1, chunk) / stride);
  }

  method OtherChunks(request: ReadRequest, shape: seq<nat>, axis: nat) returns (otherChunks: nat)
    requires axis < |request|
    ensures otherChunks == RowOfChunks(request, shape, axis)
  {
    ghost var others := AxesChunks(request, shape)[axis := 1];
    otherChunks := 1;
    for i := 0 to |request|
      invariant otherChunks == Product(others[..i])
    {
      ProductStep(others, i);
      hide Product;
      if i == axis {
        continue;
      }
      otherChunks := otherChunks * AxisChunks(request, shape, i);
    }
    assert others[..|request|] == others;
  }

  // A request narrowed along one axis to the units [begin, end).
  function Narrowed(request: ReadRequest, axis: nat, begin: nat, end: nat): (narrowed: ReadRequest)
    requires axis < |request| && begin <= end
    ensures |narrowed| == |request|
  {
    request[axis := Range(request[axis].start + begin * request[axis].stride, end - begin, request[axis].stride)]
  }

  // The elements of the request at each index of the axis it is cut along.
  ghost function UnitElements(request: ReadRequest, axis: nat): nat
    requires axis < |request|
  {
    Product(Counts(request)[..axis])
  }

  // The pieces are the request cut along one axis at some points, end to end.
  ghost predicate CutAt(pieces: seq<Piece>, request: ReadRequest, axis: nat, cuts: seq<nat>)
    requires axis < |request|
  {
    && |cuts| == |pieces| + 1 && cuts[0] == 0
    && forall i :: 0 <= i < |pieces| ==>
         cuts[i] < cuts[i + 1]
         && pieces[i] == Piece(Narrowed(request, axis, cuts[i], cuts[i + 1]), cuts[i] * UnitElements(request, axis))
  }

  // No cut splits a chunk along the axis.
  ghost predicate CutsAligned(request: ReadRequest, shape: seq<nat>, axis: nat, cuts: seq<nat>)
    requires axis < |request|
  {
    forall i :: 0 <= i < |cuts| && cuts[i] < request[axis].count ==>
      B.Aligned(cuts[i], request[axis].start, request[axis].stride, AlongAxis(shape, axis))
  }

  // What PlanPieces makes of a request: itself, or cut along its slowest selected axis.
  ghost predicate Planned(pieces: seq<Piece>, request: ReadRequest, shape: seq<nat>, axis: Option<nat>,
                          cuts: seq<nat>) {
    if axis.None? then pieces == [Piece(request, 0)]
    else
      && axis.value < |request| && (forall i :: axis.value < i < |request| ==> request[i].count == 1)
      && CutAt(pieces, request, axis.value, cuts) && cuts[|pieces|] == request[axis.value].count
      && CutsAligned(request, shape, axis.value, cuts)
  }

  method PlanPieces(request: ReadRequest, shape: seq<nat>, chunkBytes: nat, budgetBytes: nat, readBudgetBytes: nat,
                    watching: bool)
    returns (pieces: seq<Piece>, ghost axis: Option<nat>, ghost cuts: seq<nat>)
    requires forall i :: 0 <= i < |request| ==> request[i].count > 0 && request[i].stride > 0
    ensures Planned(pieces, request, shape, axis, cuts)
    ensures pieces != [] && pieces[0].firstElement == 0
    ensures Spends(pieces, request, shape, axis, chunkBytes, budgetBytes)
  {
    var slowest := SlowestSelectedAxis(request);
    if slowest.None? || (!watching && readBudgetBytes == 0) {
      return [Piece(request, 0)], None, [];
    }
    axis := slowest;
    var unitsPerPiece := UnitsPerPiece(request, shape, slowest.value, chunkBytes, budgetBytes);
    var chunk := AlongAxis(shape, slowest.value);
    var elementsPerUnit := ElementsPerUnit(request, slowest.value);
    var cut := request[slowest.value];
    pieces, cuts := [], [0];
    var begin := 0;
    NoCut(request, shape, slowest.value);
    ghost var rows := RowsAfforded(RowBytes(request, shape, slowest.value, chunkBytes), budgetBytes);
    assert rows >= 1 && cut.stride > 0 && unitsPerPiece == UnitsOf(rows, chunk, cut.stride);
    NothingAfforded(request, shape, slowest.value, rows);
    hide *;
    while begin < cut.count
      invariant begin <= cut.count && |cuts| == |pieces| + 1 && cuts[|pieces|] == begin
      invariant CutAt(pieces, request, slowest.value, cuts) && CutsAligned(request, shape, slowest.value, cuts)
      invariant begin < cut.count ==> B.Aligned(begin, cut.start, cut.stride, chunk)
      invariant Affords(pieces, request, shape, slowest.value, rows)
      decreases cut.count - begin
    {
      B.AlignedBlockEndIs(begin, unitsPerPiece, cut.count, cut.start, cut.stride, chunk);
      var end := B.AlignedBlockEnd(begin, unitsPerPiece, cut.count, cut.start, cut.stride, chunk);
      var piece := Piece(Narrowed(request, slowest.value, begin, end), begin * elementsPerUnit);
      OneMoreCut(pieces, request, shape, slowest.value, cuts, end, piece);
      OneMoreAfforded(pieces, request, shape, slowest.value, begin, end, rows, piece);
      pieces, cuts := pieces + [piece], cuts + [end];
      begin := end;
    }
    ItIsPlanned(pieces, request, shape, slowest.value, cuts);
    ItSpends(pieces, request, shape, slowest.value, chunkBytes, budgetBytes);
    BeginsAtNone(pieces, request, slowest.value, cuts);
  }

  lemma BeginsAtNone(pieces: seq<Piece>, request: ReadRequest, axis: nat, cuts: seq<nat>)
    requires axis < |request| && CutAt(pieces, request, axis, cuts) && |cuts| == |pieces| + 1
    requires cuts[|pieces|] == request[axis].count > 0
    ensures pieces != [] && pieces[0].firstElement == 0
  {
    assert pieces != [] && cuts[0] < cuts[1];
    hide UnitElements, Narrowed;
  }

  lemma ItSpends(pieces: seq<Piece>, request: ReadRequest, shape: seq<nat>, axis: nat, chunkBytes: nat,
                 budgetBytes: nat)
    requires axis < |request|
    requires Affords(pieces, request, shape, axis,
                     RowsAfforded(RowBytes(request, shape, axis, chunkBytes), budgetBytes))
    ensures Spends(pieces, request, shape, Some(axis), chunkBytes, budgetBytes)
  {}

  // Every piece decodes no more rows of chunks than so many, or one more when it is the whole request.
  ghost predicate Affords(pieces: seq<Piece>, request: ReadRequest, shape: seq<nat>, axis: nat, rows: nat)
    requires axis < |request|
  {
    forall i :: 0 <= i < |pieces| ==>
      && |pieces[i].request| == |request|
      && AxisChunks(pieces[i].request, shape, axis) <= rows + if pieces[i].request == request then 1 else 0
  }

  // A read that is cut is cut into pieces its budget affords.
  ghost predicate Spends(pieces: seq<Piece>, request: ReadRequest, shape: seq<nat>, axis: Option<nat>,
                         chunkBytes: nat, budgetBytes: nat)
  {
    axis.Some? ==>
      && axis.value < |request|
      && Affords(pieces, request, shape, axis.value,
                 RowsAfforded(RowBytes(request, shape, axis.value, chunkBytes), budgetBytes))
  }

  lemma NothingAfforded(request: ReadRequest, shape: seq<nat>, axis: nat, rows: nat)
    requires axis < |request|
    ensures Affords([], request, shape, axis, rows) && B.Aligned(0, request[axis].start, request[axis].stride, 0)
    ensures B.Aligned(0, request[axis].start, request[axis].stride, AlongAxis(shape, axis))
  {}

  lemma OneMoreAfforded(pieces: seq<Piece>, request: ReadRequest, shape: seq<nat>, axis: nat, begin: nat, end: nat,
                        rows: nat, piece: Piece)
    requires axis < |request| && Affords(pieces, request, shape, axis, rows) && rows >= 1
    requires begin < end && begin < request[axis].count && request[axis].stride > 0
    requires piece.request == Narrowed(request, axis, begin, end)
    requires var cut, chunk := request[axis], AlongAxis(shape, axis);
             && B.Aligned(begin, cut.start, cut.stride, chunk)
             && end == B.AlignedBlockEnd(begin, UnitsOf(rows, chunk, cut.stride), cut.count, cut.start, cut.stride,
                                         chunk)
    ensures Affords(pieces + [piece], request, shape, axis, rows)
  {
    var cut, chunk := request[axis], AlongAxis(shape, axis);
    if chunk > 0 {
      BlockAfforded(begin, end, cut.count, cut.start, cut.stride, chunk, rows);
    }
    hide B.AlignedBlockEnd, B.ChunksTouched, UnitsOf;
    if begin == 0 && end == cut.count {
      assert piece.request == request;
    }
  }

  // A block of as many elements as so many chunks hold touches no more of them, unless it is the whole
  // selection: begun inside a chunk and ended inside another, it may touch one more.
  lemma BlockAfforded(begin: nat, end: nat, total: nat, start: nat, stride: nat, chunk: nat, chunks: nat)
    requires chunk > 0 && stride > 0 && chunks >= 1 && begin < total && B.Aligned(begin, start, stride, chunk)
    requires end == B.AlignedBlockEnd(begin, UnitsOf(chunks, chunk, stride), total, start, stride, chunk)
    ensures begin < end
    ensures B.ChunksTouched(start + begin * stride, end - begin, stride, chunk)
         <= chunks + if begin == 0 && end == total then 1 else 0
  {
    B.AlignedBlockEndIs(begin, UnitsOf(chunks, chunk, stride), total, start, stride, chunk);
    hide B.AlignedBlockEnd;
    if stride >= chunk {
      WideSteps(begin, end, start, stride, chunk);
    } else {
      TouchedAlong(begin, end, start, stride, chunk);
      if end - begin <= UnitsOf(chunks, chunk, stride) {
        BlockReaches(begin, end, total, start, stride, chunk, chunks);
      }
    }
  }

  // When a step is no shorter than a chunk, no two elements share one.
  lemma WideSteps(begin: nat, end: nat, start: nat, stride: nat, chunk: nat)
    requires chunk > 0 && stride >= chunk && begin < end
    ensures B.ChunkOf(begin, start, stride, chunk) == B.ChunkOf(end - 1, start, stride, chunk) ==> end == begin + 1
  {
    if end > begin + 1 {
      B.DivStep(start + begin * stride, stride, chunk);
      assert start + (begin + 1) * stride == start + begin * stride + stride;
      B.ChunkOfMono(begin + 1, end - 1, start, stride, chunk);
    }
  }

  lemma TouchedAlong(begin: nat, end: nat, start: nat, stride: nat, chunk: nat)
    requires 0 < stride < chunk && begin < end
    ensures B.ChunkOf(begin, start, stride, chunk) <= B.ChunkOf(end - 1, start, stride, chunk)
    ensures B.ChunksTouched(start + begin * stride, end - begin, stride, chunk)
         == B.ChunkOf(end - 1, start, stride, chunk) - B.ChunkOf(begin, start, stride, chunk) + 1
  {
    B.ChunkOfMono(begin, end - 1, start, stride, chunk);
    assert start + begin * stride + (end - begin - 1) * stride == start + (end - 1) * stride;
  }

  lemma BlockReaches(begin: nat, end: nat, total: nat, start: nat, stride: nat, chunk: nat, chunks: nat)
    requires 0 < stride < chunk && chunks >= 1 && begin < end <= total
    requires end - begin <= UnitsOf(chunks, chunk, stride) && B.Aligned(begin, start, stride, chunk)
    requires end == total || B.Aligned(end, start, stride, chunk)
    ensures B.ChunkOf(end - 1, start, stride, chunk)
         < B.ChunkOf(begin, start, stride, chunk) + chunks + if begin == 0 && end == total then 1 else 0
  {
    hide UnitsOf, B.ChunkOf;
    var n := end - begin;
    SpanFits(n, chunks, chunk, stride);
    if end < total {
      ReachesRows(begin, n, start, stride, chunk, chunks);
    } else if begin > 0 {
      ReachesRows(begin - 1, n, start, stride, chunk, chunks);
    } else {
      B.MulMono(n - 1, n, stride);
      ReachesRows(begin, n - 1, start, stride, chunk, chunks);
    }
  }

  // Steps that span no more than some rows of chunks end no more than that many rows on.
  lemma ReachesRows(begin: nat, n: nat, start: nat, stride: nat, chunk: nat, chunks: nat)
    requires chunk > 0 && n * stride <= chunks * chunk
    ensures B.ChunkOf(begin + n, start, stride, chunk) <= B.ChunkOf(begin, start, stride, chunk) + chunks
  {
    assert start + (begin + n) * stride == start + begin * stride + n * stride;
    WithinRows(start + begin * stride, start + (begin + n) * stride, chunk, chunks);
  }

  lemma WithinRows(first: nat, x: nat, chunk: nat, chunks: nat)
    requires chunk > 0 && x <= first + chunks * chunk
    ensures x / chunk <= first / chunk + chunks
  {
    var at := first / chunk;
    B.DivIs(first, chunk, at);
    assert (at + chunks + 1) * chunk == (at + 1) * chunk + chunks * chunk;
    B.AtOrPast(at + chunks + 1, x, chunk);
  }

  lemma SpanFits(units: nat, chunks: nat, chunk: nat, stride: nat)
    requires 0 < stride < chunk && chunks >= 1 && units <= UnitsOf(chunks, chunk, stride)
    ensures units * stride <= chunks * chunk
  {
    B.MulMono(1, chunks, chunk);
    B.AtOrPast(units, chunks * chunk, stride);
  }

  // Each piece of a read that is cut decodes no more than the budget, or than one row of chunks where that is
  // more; and a read that is all in one piece no more than a row beyond.
  lemma PieceIsAfforded(pieces: seq<Piece>, request: ReadRequest, shape: seq<nat>, axis: nat, cuts: seq<nat>,
                        chunkBytes: nat, budgetBytes: nat, i: nat)
    requires Planned(pieces, request, shape, Some(axis), cuts) && i < |pieces|
    requires Spends(pieces, request, shape, Some(axis), chunkBytes, budgetBytes)
    ensures var row := RowBytes(request, shape, axis, chunkBytes);
            DecodedBytes(pieces[i].request, shape, chunkBytes)
            <= B.Max(budgetBytes, row) + if pieces[i].request == request then row else 0
  {
    var row, piece := RowBytes(request, shape, axis, chunkBytes), pieces[i].request;
    assert piece == Narrowed(request, axis, cuts[i], cuts[i + 1]) by { assert cuts[i] < cuts[i + 1]; }
    var along := AxisChunks(piece, shape, axis);
    assert along <= RowsAfforded(row, budgetBytes) + if piece == request then 1 else 0;
    assert |piece| == |request| && piece[axis := request[axis]] == request;
    hide *;
    RowsDecoded(piece, request, shape, axis, chunkBytes);
    RowsFit(along, row, budgetBytes, if piece == request then 1 else 0);
  }

  // A piece is the request but along the cut, so a row of it is a row of the request.
  lemma RowsDecoded(piece: ReadRequest, request: ReadRequest, shape: seq<nat>, axis: nat, chunkBytes: nat)
    requires |piece| == |request| && axis < |request| && piece[axis := request[axis]] == request
    ensures DecodedBytes(piece, shape, chunkBytes)
         == AxisChunks(piece, shape, axis) * RowBytes(request, shape, axis, chunkBytes)
  {
    var mine, whole := AxesChunks(piece, shape), AxesChunks(request, shape);
    forall k | 0 <= k < |request| && k != axis ensures mine[k] == whole[k] {
      assert piece[axis := request[axis]][k] == request[k];
    }
    assert mine[axis := 1] == whole[axis := 1];
    ProductBut(mine, axis);
    Swap(chunkBytes, RowOfChunks(request, shape, axis), mine[axis]);
  }

  lemma RowsFit(along: nat, row: nat, budgetBytes: nat, more: nat)
    requires along <= RowsAfforded(row, budgetBytes) + more && more <= 1
    ensures along * row <= B.Max(budgetBytes, row) + if more == 1 then row else 0
  {
    var rows := RowsAfforded(row, budgetBytes);
    assert rows * row <= B.Max(budgetBytes, row) by {
      if row > 0 { B.DivIs(budgetBytes, row, budgetBytes / row); }
    }
    hide *;
    B.MulMono(along, rows + more, row);
    assert (rows + more) * row == rows * row + more * row;
  }

  lemma {:induction false} ProductBut(s: seq<nat>, x: nat)
    requires x < |s|
    ensures Product(s) == Product(s[x := 1]) * s[x]
    decreases |s|
  {
    var l := |s| - 1;
    if x < l {
      ProductBut(s[..l], x);
      assert s[x := 1][..l] == s[..l][x := 1];
      Swap(Product(s[..l][x := 1]), s[x], s[l]);
    } else {
      assert s[x := 1][..l] == s[..l];
    }
  }

  lemma Swap(a: nat, b: nat, c: nat)
    ensures a * b * c == a * c * b == a * (b * c) == c * (a * b)
  {}

  method ElementsPerUnit(request: ReadRequest, axis: nat) returns (elements: nat)
    requires axis < |request|
    ensures elements == UnitElements(request, axis)
  {
    elements := 1;
    for i := 0 to axis
      invariant elements == Product(Counts(request)[..i])
    {
      ProductStep(Counts(request), i);
      hide Product;
      elements := elements * request[i].count;
    }
  }

  lemma ItIsPlanned(pieces: seq<Piece>, request: ReadRequest, shape: seq<nat>, axis: nat, cuts: seq<nat>)
    requires axis < |request| && (forall i :: axis < i < |request| ==> request[i].count == 1)
    requires CutAt(pieces, request, axis, cuts) && CutsAligned(request, shape, axis, cuts)
    requires |cuts| == |pieces| + 1 && cuts[|pieces|] == request[axis].count
    ensures Planned(pieces, request, shape, Some(axis), cuts)
  {
    hide CutAt, CutsAligned;
  }

  lemma NoCut(request: ReadRequest, shape: seq<nat>, axis: nat)
    requires axis < |request|
    ensures CutAt([], request, axis, [0]) && CutsAligned(request, shape, axis, [0])
  {}

  lemma OneMoreCut(pieces: seq<Piece>, request: ReadRequest, shape: seq<nat>, axis: nat, cuts: seq<nat>, end: nat,
                   piece: Piece)
    requires axis < |request| && CutAt(pieces, request, axis, cuts) && CutsAligned(request, shape, axis, cuts)
    requires cuts[|pieces|] < end
    requires piece == Piece(Narrowed(request, axis, cuts[|pieces|], end), cuts[|pieces|] * UnitElements(request, axis))
    requires end == request[axis].count
         || B.Aligned(end, request[axis].start, request[axis].stride, AlongAxis(shape, axis))
    ensures CutAt(pieces + [piece], request, axis, cuts + [end]) && CutsAligned(request, shape, axis, cuts + [end])
  {
    hide B.Aligned, Narrowed, UnitElements;
  }

  // ---- Pieces share no chunk ----

  lemma {:induction false} CutsAscend(pieces: seq<Piece>, request: ReadRequest, axis: nat, cuts: seq<nat>, i: nat,
                                      j: nat)
    requires axis < |request| && CutAt(pieces, request, axis, cuts) && i <= j < |cuts|
    ensures cuts[i] <= cuts[j] && (i < j ==> cuts[i] < cuts[j])
    decreases j
  {
    if i < j { CutsAscend(pieces, request, axis, cuts, i, j - 1); }
  }

  // Units of two pieces lie in different chunks along the cut axis.
  lemma PiecesShareNoChunk(pieces: seq<Piece>, request: ReadRequest, shape: seq<nat>, axis: nat, cuts: seq<nat>,
                           i: nat, j: nat, a: nat, b: nat)
    requires Planned(pieces, request, shape, Some(axis), cuts) && AlongAxis(shape, axis) > 0
    requires i < j < |pieces| && cuts[i] <= a < cuts[i + 1] && cuts[j] <= b < cuts[j + 1]
    ensures B.ChunkOf(a, request[axis].start, request[axis].stride, AlongAxis(shape, axis))
          < B.ChunkOf(b, request[axis].start, request[axis].stride, AlongAxis(shape, axis))
  {
    var cut, chunk := request[axis], AlongAxis(shape, axis);
    CutsAscend(pieces, request, axis, cuts, i + 1, j);
    CutsAscend(pieces, request, axis, cuts, j, |pieces|);
    CutsAscend(pieces, request, axis, cuts, j, j + 1);
    CutsAscend(pieces, request, axis, cuts, j + 1, |pieces|);
    B.ChunkOfMono(a, cuts[j] - 1, cut.start, cut.stride, chunk);
    B.ChunkOfMono(cuts[j], b, cut.start, cut.stride, chunk);
    hide B.ChunkOf;
  }

  // ---- Where a piece lands ----

  // The k-th element of a range.
  function ElementOf(range: Range, k: nat): nat { range.start + k * range.stride }

  // The element of a request with the given index along each axis, in stored coordinates.
  ghost function StoredAt(axes: seq<Axis>, request: ReadRequest, k: seq<nat>): seq<nat>
    requires |request| == |axes| == |k|
  {
    seq(|axes|, d requires 0 <= d < |axes| =>
      var i := AxisAt(axes, d);
      if i < |request| then ElementOf(request[i], k[i]) else 0)
  }

  // A piece's element is the whole request's, `begin` further along the cut axis.
  lemma PieceElement(axes: seq<Axis>, request: ReadRequest, axis: nat, begin: nat, end: nat, k: seq<nat>)
    requires |request| == |axes| == |k| && axis < |request| && begin <= end && k[axis] >= begin
    ensures StoredAt(axes, Narrowed(request, axis, begin, end), k[axis := k[axis] - begin])
         == StoredAt(axes, request, k)
  {
    hide AxisAt;
    StepAlong(request[axis].start, begin, k[axis] - begin, request[axis].stride);
  }

  lemma StepAlong(start: nat, begin: nat, k: nat, stride: nat)
    ensures start + begin * stride + k * stride == start + (begin + k) * stride
  {}

  // Placing by the axes up to and past the cut: the ones past it select one element each.
  lemma {:induction false} PlaceOfCut(n: seq<nat>, c: seq<nat>, axis: nat)
    requires Inside(n, c) && axis < |n| && forall i :: axis < i < |n| ==> n[i] == 1
    ensures PlaceIn(n, c) == PlaceIn(n[..axis], c[..axis]) + c[axis] * Product(n[..axis])
    decreases |n|
  {
    var l := |n| - 1;
    if axis < l {
      PlaceOfCut(n[..l], c[..l], axis);
      assert n[..l][..axis] == n[..axis] && c[..l][..axis] == c[..axis];
      assert c[l] == 0;
    }
  }

  lemma {:induction false} ProductOfCut(n: seq<nat>, axis: nat)
    requires axis < |n| && forall i :: axis < i < |n| ==> n[i] == 1
    ensures Product(n) == Product(n[..axis]) * n[axis]
    decreases |n|
  {
    var l := |n| - 1;
    if axis < l {
      ProductOfCut(n[..l], axis);
      assert n[..l][..axis] == n[..axis];
    }
  }

  // An element of a piece lands in the destination where it would land unsplit.
  lemma PieceLands(request: ReadRequest, axis: nat, begin: nat, end: nat, k: seq<nat>)
    requires axis < |request| && begin <= end <= request[axis].count
    requires forall i :: axis < i < |request| ==> request[i].count == 1
    requires Inside(Counts(request), k) && begin <= k[axis] < end
    ensures var piece := Counts(Narrowed(request, axis, begin, end));
      && Inside(piece, k[axis := k[axis] - begin])
      && PlaceIn(Counts(request), k) == begin * UnitElements(request, axis) + PlaceIn(piece, k[axis := k[axis] - begin])
  {
    var n, m, c := Counts(request), Counts(Narrowed(request, axis, begin, end)), k[axis := k[axis] - begin];
    assert m[..axis] == n[..axis] && c[..axis] == k[..axis];
    PlaceOfCut(n, k, axis);
    PlaceOfCut(m, c, axis);
    hide PlaceIn, Product;
    Distributes(k[axis] - begin, begin, Product(n[..axis]));
  }

  lemma Distributes(a: nat, b: nat, c: nat)
    ensures (a + b) * c == a * c + b * c
  {}

  // And holds the elements of its own stretch, no more.
  lemma PieceFills(request: ReadRequest, axis: nat, begin: nat, end: nat)
    requires axis < |request| && begin <= end <= request[axis].count
    requires forall i :: axis < i < |request| ==> request[i].count == 1
    ensures begin * UnitElements(request, axis) + Product(Counts(Narrowed(request, axis, begin, end)))
         == end * UnitElements(request, axis)
    ensures end * UnitElements(request, axis) <= Product(Counts(request))
    ensures end == request[axis].count ==> end * UnitElements(request, axis) == Product(Counts(request))
  {
    hide Product, UnitElements;
    var n, m, unit := Counts(request), Counts(Narrowed(request, axis, begin, end)), UnitElements(request, axis);
    UnitIs(request, axis);
    assert m[..axis] == n[..axis];
    ProductOfCut(n, axis);
    ProductOfCut(m, axis);
    hide *;
    Stretch(begin, end, n[axis], unit);
  }

  lemma UnitIs(request: ReadRequest, axis: nat)
    requires axis < |request|
    ensures UnitElements(request, axis) == Product(Counts(request)[..axis])
  {}

  lemma Stretch(begin: nat, end: nat, count: nat, unit: nat)
    requires begin <= end <= count
    ensures begin * unit + unit * (end - begin) == end * unit <= unit * count
    ensures end == count ==> end * unit == unit * count
  {
    Distributes(end - begin, begin, unit);
    B.MulMono(end, count, unit);
  }

  // The element at a place of the destination.
  lemma ElementAtPlace(request: ReadRequest, axis: nat, begin: nat, end: nat, k: seq<nat>)
    requires axis < |request| && begin <= end <= request[axis].count
    requires forall i :: axis < i < |request| ==> request[i].count == 1
    requires Inside(Counts(request), k)
    ensures begin * UnitElements(request, axis) <= PlaceIn(Counts(request), k) < end * UnitElements(request, axis)
       <==> begin <= k[axis] < end
  {
    var n := Counts(request);
    PlaceOfCut(n, k, axis);
    assert Inside(n[..axis], k[..axis]);
    PlaceBelow(n[..axis], k[..axis]);
    hide PlaceIn, Product;
    B.DivMod(k[axis], PlaceIn(n[..axis], k[..axis]), Product(n[..axis]));
    B.AtOrPast(begin, PlaceIn(n, k), Product(n[..axis]));
    B.AtOrPast(end, PlaceIn(n, k), Product(n[..axis]));
  }
}
