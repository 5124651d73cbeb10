// What decoding one chunk costs, its flag with it: ChunkElements, DefaultReadBytes, FlagChunksAcross
// and DecodedFlagBytes, src/chunk_blocks.h.

module ReadCosts {
  import opened PixelSelections
  import B = ChunkBlocks

  const DECODED_BYTES_PER_READ: nat := 0x400_0000
  const MIN_CHUNKS_PER_READ: nat := 8
  const MAX_DECODED_BYTES_PER_READ: nat := 0x1000_0000

  // Enough for eight chunks, between 64 MiB and 256 MiB.
  function DefaultReadBytes(chunkBytes: nat): (bytes: nat)
    ensures DECODED_BYTES_PER_READ <= bytes <= MAX_DECODED_BYTES_PER_READ
    ensures bytes < MAX_DECODED_BYTES_PER_READ ==> MIN_CHUNKS_PER_READ * chunkBytes <= bytes
  {
    B.Min(MAX_DECODED_BYTES_PER_READ, B.Max(DECODED_BYTES_PER_READ, B.Max(1, chunkBytes) * MIN_CHUNKS_PER_READ))
  }

  function AlongAxis(shape: seq<nat>, axis: nat): nat {
    if axis < |shape| then shape[axis] else 0
  }

  // The shape with every empty extent taken as one.
  ghost function Extents(shape: seq<nat>): (n: seq<nat>)
    ensures |n| == |shape|
  {
    seq(|shape|, i requires 0 <= i < |shape| => B.Max(1, shape[i]))
  }

  method ChunkElements(shape: seq<nat>) returns (elements: nat)
    ensures elements == Product(Extents(shape)) > 0
  {
    elements := 1;
    for i := 0 to |shape|
      invariant elements == Product(Extents(shape)[..i]) > 0
    {
      ProductStep(Extents(shape), i);
      hide Product;
      B.MulMono(1, Extents(shape)[i], elements);
      elements := elements * B.Max(1, shape[i]);
    }
    assert Extents(shape)[..|shape|] == Extents(shape);
  }

  // Bytes one chunk decompresses to.
  method DecodedChunkBytes(shape: seq<nat>, elementBytes: nat) returns (bytes: nat)
    ensures bytes == B.Max(1, Product(Extents(shape)) * elementBytes)
  {
    var elements := ChunkElements(shape);
    hide Product;
    bytes := B.Max(1, elements * elementBytes);
  }

  // How many flag chunks [first, end) lies across.
  function Across(first: nat, end: nat, flagChunk: nat): nat
    requires first < end && flagChunk > 0
  {
    B.DivMono(first, end - 1, flagChunk);
    (end - 1) / flagChunk - first / flagChunk + 1
  }

  lemma AcrossPart(first: nat, end: nat, a: nat, b: nat, flagChunk: nat)
    requires first <= a < b <= end && flagChunk > 0
    ensures Across(a, b, flagChunk) <= Across(first, end, flagChunk)
  {
    B.DivMono(first, a, flagChunk);
    B.DivMono(b - 1, end - 1, flagChunk);
  }

  // Pixel chunk q of an axis, or all of an axis with none.
  function ChunkStep(length: nat, pixelChunk: nat): nat {
    if pixelChunk == 0 then length else pixelChunk
  }

  function ChunkFirst(q: nat, step: nat): nat { q * step }

  // At least as many as the flag chunks any pixel chunk of the axis lies across.
  ghost predicate CoversAcross(most: nat, length: nat, step: nat, flagChunk: nat, q: nat)
    requires flagChunk > 0 && step > 0
  {
    ChunkFirst(q, step) < length ==>
      Across(ChunkFirst(q, step), B.Min(ChunkFirst(q, step) + step, length), flagChunk) <= most
  }

  // The most any of the first n pixel chunks lies across, which the one at `worst` does.
  ghost predicate Worst(most: nat, length: nat, step: nat, flagChunk: nat, n: nat, worst: nat)
    requires flagChunk > 0 && step > 0
  {
    && (forall q: nat :: q < n ==> CoversAcross(most, length, step, flagChunk, q))
    && (n > 0 ==> IsAcross(most, length, step, flagChunk, worst))
  }

  lemma OneMoreAcross(most: nat, length: nat, step: nat, flagChunk: nat, n: nat, worst: nat)
    requires flagChunk > 0 && step > 0 && Worst(most, length, step, flagChunk, n, worst) && ChunkFirst(n, step) < length
    requires n == 0 ==> most <= 1
    ensures var across := Across(ChunkFirst(n, step), B.Min(ChunkFirst(n, step) + step, length), flagChunk);
            across >= 1
            && Worst(B.Max(most, across), length, step, flagChunk, n + 1, if across >= most then n else worst)
  {
    hide ChunkFirst;
    var first := ChunkFirst(n, step);
    B.DivMono(first, B.Min(first + step, length) - 1, flagChunk);
    var across := Across(first, B.Min(first + step, length), flagChunk);
    hide Across;
    forall q: nat | q < n + 1 ensures CoversAcross(B.Max(most, across), length, step, flagChunk, q) {
      if q < n { assert CoversAcross(most, length, step, flagChunk, q); }
    }
  }

  lemma WorstOfAll(most: nat, length: nat, step: nat, flagChunk: nat, n: nat, worst: nat)
    requires flagChunk > 0 && step > 0 && Worst(most, length, step, flagChunk, n, worst)
    requires ChunkFirst(n, step) >= length
    ensures forall q: nat :: CoversAcross(most, length, step, flagChunk, q)
  {
    hide Across;
    forall q: nat ensures CoversAcross(most, length, step, flagChunk, q) {
      if q >= n { B.MulMono(n, q, step); }
    }
  }

  // The most flag chunks any pixel chunk of the axis lies across.
  ghost predicate MostAcross(most: nat, length: nat, step: nat, flagChunk: nat)
    requires flagChunk > 0 && step > 0
  {
    && (forall q: nat :: CoversAcross(most, length, step, flagChunk, q))
    && exists q: nat :: IsAcross(most, length, step, flagChunk, q)
  }

  method FlagChunksAcross(length: nat, pixelChunk: nat, flagChunk: nat) returns (most: nat)
    ensures most >= 1 && (flagChunk == 0 || length == 0 ==> most == 1)
    ensures flagChunk > 0 && length > 0 ==> MostAcross(most, length, ChunkStep(length, pixelChunk), flagChunk)
  {
    if flagChunk == 0 || length == 0 {
      return 1;
    }
    if flagChunk == pixelChunk {
      AllAlike(length, flagChunk);
      return 1;
    }
    hide Worst, CoversAcross, Across, ChunkFirst;
    var step := ChunkStep(length, pixelChunk);
    most := 1;
    var first := 0;
    ghost var q, worst := 0, 0;
    NoneYet(length, step, flagChunk);
    while first < length
      invariant first == ChunkFirst(q, step) && most >= 1 && (q == 0 ==> most <= 1) && (first > 0 ==> q > 0)
      invariant Worst(most, length, step, flagChunk, q, worst)
      decreases length - first
    {
      var last := B.Min(first + step, length) - 1;
      B.DivMono(first, last, flagChunk);
      var across := last / flagChunk - first / flagChunk + 1;
      AcrossIs(first, last, flagChunk);
      OneMoreAcross(most, length, step, flagChunk, q, worst);
      worst := if across >= most then q else worst;
      most := B.Max(most, across);
      NextChunk(q, step);
      first, q := first + step, q + 1;
    }
    WorstOfAll(most, length, step, flagChunk, q, worst);
    WorstIs(most, length, step, flagChunk, q, worst);
  }

  lemma AcrossIs(first: nat, last: nat, flagChunk: nat)
    requires first <= last && flagChunk > 0
    ensures Across(first, last + 1, flagChunk) == last / flagChunk - first / flagChunk + 1
  {}

  lemma NoneYet(length: nat, step: nat, flagChunk: nat)
    requires step > 0 && flagChunk > 0
    ensures ChunkFirst(0, step) == 0 && Worst(1, length, step, flagChunk, 0, 0)
  {}

  lemma WorstIs(most: nat, length: nat, step: nat, flagChunk: nat, n: nat, worst: nat)
    requires flagChunk > 0 && step > 0 && n > 0 && Worst(most, length, step, flagChunk, n, worst)
    ensures IsAcross(most, length, step, flagChunk, worst)
  {}

  lemma AllAlike(length: nat, chunk: nat)
    requires chunk > 0 && length > 0
    ensures MostAcross(1, length, chunk, chunk)
  {
    forall q: nat ensures CoversAcross(1, length, chunk, chunk, q) { ChunkedAlike(length, chunk, q); }
    ChunkedAlike(length, chunk, 0);
    assert IsAcross(1, length, chunk, chunk, 0);
  }

  lemma NextChunk(q: nat, step: nat)
    ensures ChunkFirst(q + 1, step) == ChunkFirst(q, step) + step
  {}

  // Some pixel chunk lies across that many.
  ghost predicate IsAcross(most: nat, length: nat, step: nat, flagChunk: nat, q: nat)
    requires flagChunk > 0 && step > 0
  {
    && ChunkFirst(q, step) < length
    && Across(ChunkFirst(q, step), B.Min(ChunkFirst(q, step) + step, length), flagChunk) == most
  }

  // Chunked alike, a pixel chunk is one flag chunk.
  lemma ChunkedAlike(length: nat, chunk: nat, q: nat)
    requires chunk > 0
    ensures ChunkFirst(q, chunk) < length ==>
              Across(ChunkFirst(q, chunk), B.Min(ChunkFirst(q, chunk) + chunk, length), chunk) == 1
  {
    if ChunkFirst(q, chunk) < length {
      B.DivMod(q, 0, chunk);
      B.DivMod(q, B.Min(ChunkFirst(q, chunk) + chunk, length) - 1 - ChunkFirst(q, chunk), chunk);
    }
  }

  // ---- The flag beside one pixel chunk ----

  // The flag's own chunk shape, or the pixels' when it has none.
  function FlagShape(shape: seq<nat>, flagShape: seq<nat>): seq<nat> {
    if flagShape == [] then shape else flagShape
  }

  // The flag chunks that [first, end) of an axis lies across, and what they hold of it.
  function FlagAlong(first: nat, end: nat, flagChunk: nat): nat
    requires first < end
  {
    if flagChunk == 0 then 1 else Across(first, end, flagChunk)
  }

  // [first, end) of an axis is inside one pixel chunk.
  ghost predicate InPixelChunk(first: nat, end: nat, length: nat, pixelChunk: nat) {
    first < end <= length && (pixelChunk > 0 ==> first / pixelChunk == (end - 1) / pixelChunk)
  }

  // [first[i], end[i]) along each axis i is inside one pixel chunk of the image.
  ghost predicate OneChunkBox(lengths: seq<nat>, shape: seq<nat>, first: seq<nat>, end: seq<nat>) {
    && |first| == |end| == |lengths|
    && forall i :: 0 <= i < |lengths| ==> InPixelChunk(first[i], end[i], lengths[i], AlongAxis(shape, i))
  }

  lemma AcrossAtMost(first: nat, end: nat, length: nat, pixelChunk: nat, flagChunk: nat, most: nat)
    requires InPixelChunk(first, end, length, pixelChunk) && most >= 1
    requires flagChunk > 0 ==> MostAcross(most, length, ChunkStep(length, pixelChunk), flagChunk)
    ensures FlagAlong(first, end, flagChunk) <= most
  {
    if flagChunk > 0 {
      var step := ChunkStep(length, pixelChunk);
      var q := if pixelChunk == 0 then 0 else first / pixelChunk;
      assert CoversAcross(most, length, step, flagChunk, q);
      ChunkAround(first, end, length, step, q);
      hide Across, MostAcross;
      AcrossPart(ChunkFirst(q, step), B.Min(ChunkFirst(q, step) + step, length), first, end, flagChunk);
    }
  }

  lemma ChunkAround(first: nat, end: nat, length: nat, step: nat, q: nat)
    requires first < end <= length && step > 0
    requires if step == length then q == 0 || q == first / step == (end - 1) / step
              else q == first / step == (end - 1) / step
    ensures ChunkFirst(q, step) <= first && end <= B.Min(ChunkFirst(q, step) + step, length)
  {
    if q != 0 || step != length {
      B.DivIs(first, step, q);
      B.DivIs(end - 1, step, q);
      B.AtOrPast(q, first, step);
      NextChunk(q, step);
    }
  }

  // What each axis comes to, and the bytes of flag they come to together.
  ghost function FlagSides(first: seq<nat>, end: seq<nat>, flag: seq<nat>): (n: seq<nat>)
    requires |first| == |end| && forall i :: 0 <= i < |first| ==> first[i] < end[i]
    ensures |n| == |first|
  {
    seq(|first|, i requires 0 <= i < |first| =>
      FlagAlong(first[i], end[i], AlongAxis(flag, i)) * B.Max(1, AlongAxis(flag, i)))
  }

  // Enough for the flag beside any one pixel chunk of the image, however the two are chunked.
  method DecodedFlagBytes(lengths: seq<nat>, shape: seq<nat>, flagShape: seq<nat>) returns (bytes: nat)
    ensures forall first, end :: OneChunkBox(lengths, shape, first, end) ==>
              Product(FlagSides(first, end, FlagShape(shape, flagShape))) <= bytes
  {
    hide Product, FlagAlong, MostAcross, FlagSides;
    var flag := FlagShape(shape, flagShape);
    bytes := 1;
    ghost var sides: seq<nat> := [];
    assert Product(sides) == 1 by { EmptyProduct(); }
    for axis := 0 to |lengths|
      invariant |sides| == axis && bytes == Product(sides)
      invariant forall i :: 0 <= i < axis ==> SideCovers(lengths[i], AlongAxis(shape, i), AlongAxis(flag, i), sides[i])
    {
      var flagChunk := AlongAxis(flag, axis);
      var most := FlagChunksAcross(lengths[axis], AlongAxis(shape, axis), flagChunk);
      ItCovers(lengths[axis], AlongAxis(shape, axis), flagChunk, most);
      bytes := bytes * (most * B.Max(1, flagChunk));
      ProductOnto(sides, most * B.Max(1, flagChunk));
      sides := sides + [most * B.Max(1, flagChunk)];
    }
    forall first, end | OneChunkBox(lengths, shape, first, end)
      ensures Product(FlagSides(first, end, flag)) <= bytes
    {
      SidesAtMost(lengths, shape, flag, sides, first, end);
    }
  }

  lemma EmptyProduct()
    ensures Product([]) == 1
  {}

  lemma ProductOnto(s: seq<nat>, x: nat)
    ensures Product(s + [x]) == Product(s) * x
  {
    assert (s + [x])[..|s|] == s;
  }

  ghost predicate SideCovers(length: nat, pixelChunk: nat, flagChunk: nat, side: nat) {
    forall first, end :: InPixelChunk(first, end, length, pixelChunk) ==>
      FlagAlong(first, end, flagChunk) * B.Max(1, flagChunk) <= side
  }

  lemma ItCovers(length: nat, pixelChunk: nat, flagChunk: nat, most: nat)
    requires most >= 1
    requires flagChunk > 0 && length > 0 ==> MostAcross(most, length, ChunkStep(length, pixelChunk), flagChunk)
    ensures SideCovers(length, pixelChunk, flagChunk, most * B.Max(1, flagChunk))
  {
    hide MostAcross, FlagAlong;
    forall first, end | InPixelChunk(first, end, length, pixelChunk)
      ensures FlagAlong(first, end, flagChunk) * B.Max(1, flagChunk) <= most * B.Max(1, flagChunk)
    {
      AcrossAtMost(first, end, length, pixelChunk, flagChunk, most);
      B.MulMono(FlagAlong(first, end, flagChunk), most, B.Max(1, flagChunk));
    }
  }

  lemma SidesAtMost(lengths: seq<nat>, shape: seq<nat>, flag: seq<nat>, sides: seq<nat>, first: seq<nat>, end: seq<nat>)
    requires |sides| == |lengths| && OneChunkBox(lengths, shape, first, end)
    requires forall i :: 0 <= i < |lengths| ==>
              SideCovers(lengths[i], AlongAxis(shape, i), AlongAxis(flag, i), sides[i])
    ensures Product(FlagSides(first, end, flag)) <= Product(sides)
  {
    assert forall i :: 0 <= i < |lengths| ==> first[i] < end[i];
    hide Product, FlagAlong, InPixelChunk;
    ProductMono(FlagSides(first, end, flag), sides);
  }

  lemma {:induction false} ProductMono(a: seq<nat>, b: seq<nat>)
    requires |a| == |b| && forall i :: 0 <= i < |a| ==> a[i] <= b[i]
    ensures Product(a) <= Product(b)
  {
    if a != [] {
      var l := |a| - 1;
      ProductMono(a[..l], b[..l]);
      B.MulMono(Product(a[..l]), Product(b[..l]), a[l]);
      B.MulMono(a[l], b[l], Product(b[..l]));
    }
  }
}
