// Chunks along one axis: src/chunk_blocks.h. Lengths are unbounded, so nothing wraps.

module ChunkBlocks {

  function Max(a: nat, b: nat): nat { if a < b then b else a }
  function Min(a: nat, b: nat): nat { if b < a then b else a }

  // ---- Division ----

  lemma Order(a: nat, b: nat, c: nat)
    requires c > 0
    ensures a < b <==> a * c < b * c
  {}

  lemma DivIs(x: nat, chunk: nat, q: nat)
    requires chunk > 0
    ensures x / chunk == q <==> q * chunk <= x < (q + 1) * chunk
  {
    var d := x / chunk;
    assert d * chunk <= x < (d + 1) * chunk;
    Order(d, q + 1, chunk);
    Order(q, d + 1, chunk);
  }

  lemma DivMod(q: nat, r: nat, chunk: nat)
    requires r < chunk
    ensures (q * chunk + r) / chunk == q && (q * chunk + r) % chunk == r
  {
    DivIs(q * chunk + r, chunk, q);
  }

  lemma MulMono(a: nat, b: nat, c: nat)
    requires a <= b
    ensures a * c <= b * c
  {}

  lemma DivMono(a: nat, b: nat, chunk: nat)
    requires a <= b && chunk > 0
    ensures a / chunk <= b / chunk
  {
    DivIs(a, chunk, a / chunk);
    DivIs(b, chunk, b / chunk);
    Order(a / chunk, b / chunk + 1, chunk);
  }

  lemma AtOrPast(c: nat, x: nat, chunk: nat)
    requires chunk > 0
    ensures c <= x / chunk <==> c * chunk <= x
  {
    DivIs(x, chunk, x / chunk);
    Order(x / chunk, c, chunk);
    Order(c, x / chunk + 1, chunk);
  }

  // One step of less than a chunk leaves the chunk or moves to the next; a step of a chunk or more
  // always leaves it.
  lemma DivStep(x: nat, step: nat, chunk: nat)
    requires chunk > 0
    ensures step < chunk ==> (x + step) / chunk == x / chunk || (x + step) / chunk == x / chunk + 1
    ensures step >= chunk ==> (x + step) / chunk > x / chunk
  {
    var q := x / chunk;
    DivIs(x, chunk, q);
    assert (q + 1) * chunk == q * chunk + chunk && (q + 2) * chunk == q * chunk + 2 * chunk;
    if step < chunk {
      DivIs(x + step, chunk, q);
      DivIs(x + step, chunk, q + 1);
    } else {
      DivMono((q + 1) * chunk, x + step, chunk);
      DivIs((q + 1) * chunk, chunk, q + 1);
    }
  }

  function CeilDiv(a: nat, b: nat): nat
    requires b > 0
  {
    a / b + if a % b != 0 then 1 else 0
  }

  lemma CeilDivIs(a: nat, b: nat, q: nat)
    requires b > 0
    ensures CeilDiv(a, b) <= q <==> a <= q * b
  {
    var d := a / b;
    assert d * b <= a < (d + 1) * b && (a % b == 0 ==> a == d * b);
    Order(q, d, b);
    Order(d, q, b);
    Order(q, d + 1, b);
  }

  // ---- How many units a read affords ----

  function UnitsAffordable(chunksPerRead: nat, chunksPerUnit: nat): (units: nat)
    ensures units >= 1
    ensures units * chunksPerUnit <= Max(chunksPerRead, chunksPerUnit)
    ensures chunksPerUnit >= 1 ==> (units + 1) * chunksPerUnit > chunksPerRead
  {
    var unit := Max(1, chunksPerUnit);
    DivIs(chunksPerRead, unit, chunksPerRead / unit);
    Max(1, chunksPerRead / unit)
  }

  // ---- Blocks that end on chunk boundaries ----

  function ChunkOf(index: nat, axisStart: nat, stride: nat, chunk: nat): nat
    requires chunk > 0
  {
    (axisStart + index * stride) / chunk
  }

  // The least index whose coordinate is not before `absolute`.
  function FirstAt(absolute: nat, axisStart: nat, stride: nat): nat
    requires stride > 0
  {
    if absolute <= axisStart then 0 else CeilDiv(absolute - axisStart, stride)
  }

  lemma FirstAtIs(absolute: nat, axisStart: nat, stride: nat, index: nat)
    requires stride > 0
    ensures FirstAt(absolute, axisStart, stride) <= index <==> absolute <= axisStart + index * stride
  {
    if absolute > axisStart {
      CeilDivIs(absolute - axisStart, stride, index);
    }
  }

  lemma ChunkOfMono(i: nat, j: nat, axisStart: nat, stride: nat, chunk: nat)
    requires i <= j && chunk > 0
    ensures ChunkOf(i, axisStart, stride, chunk) <= ChunkOf(j, axisStart, stride, chunk)
  {
    MulMono(i, j, stride);
    DivMono(axisStart + i * stride, axisStart + j * stride, chunk);
  }

  // A cut at `index` splits no chunk: what is before it and what is after it are in different ones.
  ghost predicate Aligned(index: nat, axisStart: nat, stride: nat, chunk: nat) {
    index > 0 && chunk > 0 ==> ChunkOf(index - 1, axisStart, stride, chunk) < ChunkOf(index, axisStart, stride, chunk)
  }

  function AlignedBlockEnd(begin: nat, desired: nat, total: nat, axisStart: nat, stride: nat, chunk: nat): nat
  {
    var target := Min(begin + Max(1, desired), total);
    if target >= total || chunk == 0 || stride == 0 then target
    else
      var chunkIndex := ChunkOf(target, axisStart, stride, chunk);
      if target == 0 || ChunkOf(target - 1, axisStart, stride, chunk) != chunkIndex then target
      else
        var chunkFirst := FirstAt(chunkIndex * chunk, axisStart, stride);
        if chunkFirst > begin then chunkFirst
        else Min(FirstAt((chunkIndex + 1) * chunk, axisStart, stride), total)
  }

  // The end of a block moves past its beginning, stays inside the selection and never splits a
  // chunk; the block is longer than asked for only when it is all in one chunk.
  lemma AlignedBlockEndIs(begin: nat, desired: nat, total: nat, axisStart: nat, stride: nat, chunk: nat)
    requires begin < total && stride > 0
    ensures var end := AlignedBlockEnd(begin, desired, total, axisStart, stride, chunk);
            && begin < end <= total
            && (end == total || Aligned(end, axisStart, stride, chunk))
            && (end - begin <= Max(1, desired)
                || (chunk > 0 && ChunkOf(begin, axisStart, stride, chunk)
                    == ChunkOf(end - 1, axisStart, stride, chunk)))
  {
    var target := Min(begin + Max(1, desired), total);
    if target < total && chunk > 0 {
      var c := ChunkOf(target, axisStart, stride, chunk);
      ChunkOfMono(target - 1, target, axisStart, stride, chunk);
      if ChunkOf(target - 1, axisStart, stride, chunk) == c {
        hide ChunkOf, FirstAt;
        var first := FirstAt(c * chunk, axisStart, stride);
        var past := FirstAt((c + 1) * chunk, axisStart, stride);
        ChunkHolds(c, target - 1, axisStart, stride, chunk);
        ChunkHolds(c, target, axisStart, stride, chunk);
        FirstCutsAt(c * chunk, c, first, axisStart, stride, chunk);
        FirstCutsAt((c + 1) * chunk, c + 1, past, axisStart, stride, chunk);
        if first <= begin {
          ChunkHolds(c, begin, axisStart, stride, chunk);
          ChunkHolds(c, Min(past, total) - 1, axisStart, stride, chunk);
        }
      }
    }
  }

  // The selected indices of chunk c are those from its first to the next chunk's.
  lemma ChunkHolds(c: nat, index: nat, axisStart: nat, stride: nat, chunk: nat)
    requires stride > 0 && chunk > 0
    ensures ChunkOf(index, axisStart, stride, chunk) == c
       <==> FirstAt(c * chunk, axisStart, stride) <= index < FirstAt((c + 1) * chunk, axisStart, stride)
  {
    FirstAtIs(c * chunk, axisStart, stride, index);
    FirstAtIs((c + 1) * chunk, axisStart, stride, index);
    AtOrPast(c, axisStart + index * stride, chunk);
    AtOrPast(c + 1, axisStart + index * stride, chunk);
  }

  // The first index at or after the start of chunk c begins a chunk.
  lemma FirstCutsAt(absolute: nat, c: nat, first: nat, axisStart: nat, stride: nat, chunk: nat)
    requires stride > 0 && chunk > 0 && absolute == c * chunk
    requires first == FirstAt(absolute, axisStart, stride)
    ensures Aligned(first, axisStart, stride, chunk)
  {
    if first > 0 {
      FirstAtIs(absolute, axisStart, stride, first - 1);
      FirstAtIs(absolute, axisStart, stride, first);
      var before, at := axisStart + (first - 1) * stride, axisStart + first * stride;
      AtOrPast(c, before, chunk);
      AtOrPast(c, at, chunk);
    }
  }

  // ---- Chunks a strided selection touches ----

  function ChunksTouched(start: nat, count: nat, stride: nat, chunk: nat): nat
  {
    if count == 0 then 0
    else if chunk == 0 || stride >= chunk then count
    else
      var last := start + (count - 1) * (if stride == 0 then 1 else stride);
      DivMono(start, last, chunk);
      last / chunk - start / chunk + 1
  }

  // The reference: the set of chunks that hold a selected element.
  ghost function TouchedSet(start: nat, count: nat, stride: nat, chunk: nat): set<nat>
    requires chunk > 0
  {
    set k | 0 <= k < count :: ChunkOf(k, start, stride, chunk)
  }

  lemma {:induction false} TouchedIsTheSet(start: nat, count: nat, stride: nat, chunk: nat)
    requires chunk > 0 && stride > 0
    ensures ChunksTouched(start, count, stride, chunk) == |TouchedSet(start, count, stride, chunk)|
  {
    if count == 0 {
    } else if count == 1 {
      assert TouchedSet(start, 1, stride, chunk) == {ChunkOf(0, start, stride, chunk)};
    } else {
      TouchedIsTheSet(start, count - 1, stride, chunk);
      OneMore(start, count - 1, stride, chunk);
      var before := TouchedSet(start, count - 1, stride, chunk);
      assert TouchedSet(start, count, stride, chunk) == before + {ChunkOf(count - 1, start, stride, chunk)};
    }
  }

  // One more element is in the last chunk touched, or in one not touched before.
  lemma OneMore(start: nat, count: nat, stride: nat, chunk: nat)
    requires chunk > 0 && stride > 0 && count > 0
    ensures ChunksTouched(start, count + 1, stride, chunk)
         == ChunksTouched(start, count, stride, chunk)
            + if ChunkOf(count, start, stride, chunk) in TouchedSet(start, count, stride, chunk) then 0 else 1
  {
    var x := start + (count - 1) * stride;
    assert start + count * stride == x + stride;
    DivStep(x, stride, chunk);
    var last, previous := ChunkOf(count, start, stride, chunk), ChunkOf(count - 1, start, stride, chunk);
    assert previous in TouchedSet(start, count, stride, chunk);
    if last != previous {
      forall k | 0 <= k < count ensures ChunkOf(k, start, stride, chunk) < last {
        ChunkOfMono(k, count - 1, start, stride, chunk);
      }
    }
  }

  // Chunks add up across a cut that splits none: no chunk is decoded, or counted, twice.
  lemma TouchedAddsUp(begin: nat, middle: nat, end: nat, axisStart: nat, stride: nat, chunk: nat)
    requires begin <= middle <= end && stride > 0 && chunk > 0
    requires begin < middle < end ==> Aligned(middle, axisStart, stride, chunk)
    ensures ChunksTouched(axisStart + begin * stride, end - begin, stride, chunk)
         == ChunksTouched(axisStart + begin * stride, middle - begin, stride, chunk)
            + ChunksTouched(axisStart + middle * stride, end - middle, stride, chunk)
  {
    if begin < middle < end && stride < chunk {
      TouchedSpan(begin, end, axisStart, stride, chunk);
      TouchedSpan(begin, middle, axisStart, stride, chunk);
      TouchedSpan(middle, end, axisStart, stride, chunk);
      assert axisStart + middle * stride == axisStart + (middle - 1) * stride + stride;
      DivStep(axisStart + (middle - 1) * stride, stride, chunk);
      hide ChunksTouched;
    }
  }

  // Steps shorter than a chunk skip none: all from the first element's chunk to the last's are touched.
  lemma TouchedSpan(begin: nat, end: nat, axisStart: nat, stride: nat, chunk: nat)
    requires begin < end && 0 < stride < chunk
    ensures ChunksTouched(axisStart + begin * stride, end - begin, stride, chunk)
         == ChunkOf(end - 1, axisStart, stride, chunk) - ChunkOf(begin, axisStart, stride, chunk) + 1
  {
    var n := end - 1 - begin;
    assert (begin + n) * stride == begin * stride + n * stride;
    assert axisStart + begin * stride + n * stride == axisStart + (end - 1) * stride;
  }

  // A non-empty run of selected elements touches a chunk.
  lemma TouchedAtLeastOne(start: nat, count: nat, stride: nat, chunk: nat)
    requires count > 0
    ensures ChunksTouched(start, count, stride, chunk) >= 1
  {
    if chunk > 0 { DivMono(start, start + (count - 1) * (if stride == 0 then 1 else stride), chunk); }
  }

  // ---- The chunks a sample of every nth element has an element in ----

  // How many elements every stride-th of `length` makes.
  function Samples(length: nat, stride: nat): nat
    requires stride > 0
  {
    if length == 0 then 0 else (length - 1) / stride + 1
  }

  lemma SampleInside(i: nat, length: nat, stride: nat)
    requires stride > 0
    ensures i < Samples(length, stride) <==> i * stride < length
  {
    if length > 0 { AtOrPast(i, length - 1, stride); }
  }

  function SampledCount(length: nat, chunk: nat, stride: nat): nat
    requires chunk > 0 && stride > 0
  {
    if length == 0 then 0
    else if stride < chunk then
      var last: nat := Samples(length, stride) - 1;
      MulMono(0, last, stride);
      last * stride / chunk + 1
    else Samples(length, stride)
  }

  // The index-th of them.
  function SampledAt(index: nat, chunk: nat, stride: nat): nat
    requires chunk > 0 && stride > 0
  {
    if stride < chunk then index else index * stride / chunk
  }

  lemma SampledIsTouched(length: nat, chunk: nat, stride: nat)
    requires chunk > 0 && stride > 0
    ensures SampledCount(length, chunk, stride) == ChunksTouched(0, Samples(length, stride), stride, chunk)
  {}

  // Where among them the chunk of sample i is.
  ghost function RankOf(i: nat, chunk: nat, stride: nat): nat
    requires chunk > 0 && stride > 0
  {
    if stride < chunk then i * stride / chunk else i
  }

  lemma RankInside(i: nat, length: nat, chunk: nat, stride: nat)
    requires chunk > 0 && stride > 0 && i * stride < length
    ensures RankOf(i, chunk, stride) < SampledCount(length, chunk, stride)
    ensures SampledAt(RankOf(i, chunk, stride), chunk, stride) == i * stride / chunk
  {
    SampleInside(i, length, stride);
    MulMono(i, Samples(length, stride) - 1, stride);
    DivMono(i * stride, (Samples(length, stride) - 1) * stride, chunk);
  }

  // Chunks of a sample that steps over some are one sample's each.
  lemma {:induction false} SampledAscend(a: nat, b: nat, chunk: nat, stride: nat)
    requires chunk > 0 && stride > 0 && a < b
    ensures SampledAt(a, chunk, stride) < SampledAt(b, chunk, stride)
  {
    if stride >= chunk {
      assert (b - 1) * stride + stride == b * stride;
      DivStep((b - 1) * stride, stride, chunk);
      if a < b - 1 { SampledAscend(a, b - 1, chunk, stride); }
    }
  }

  // The samples from the start of the first-th sampled chunk to the end of the last-th are those
  // whose chunk's rank lies between.
  lemma RanksBetween(i: nat, length: nat, first: nat, last: nat, chunk: nat, stride: nat)
    requires chunk > 0 && stride > 0 && i * stride < length && first <= last
    ensures SampledAt(first, chunk, stride) * chunk <= i * stride
            < Min(length, (SampledAt(last, chunk, stride) + 1) * chunk)
       <==> first <= RankOf(i, chunk, stride) <= last
  {
    var rank := RankOf(i, chunk, stride);
    RankInside(i, length, chunk, stride);
    AtOrPast(SampledAt(first, chunk, stride), i * stride, chunk);
    AtOrPast(SampledAt(last, chunk, stride) + 1, i * stride, chunk);
    if rank < first { SampledAscend(rank, first, chunk, stride); }
    if first < rank { SampledAscend(first, rank, chunk, stride); }
    if last < rank { SampledAscend(last, rank, chunk, stride); }
    if rank < last { SampledAscend(rank, last, chunk, stride); }
  }
}
