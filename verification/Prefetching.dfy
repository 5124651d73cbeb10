// Decoding the chunks a request touches, and counting them: PrefetchChunks, src/read/pieces_read.cc.

module Prefetching {
  import opened Wrappers
  import opened Values
  import opened PixelSelections
  import opened SlabReads
  import opened Pieces
  import opened PiecedReads
  import opened Samples
  import opened ReadCosts
  import B = ChunkBlocks

  const SAMPLE_ELEMENTS: nat := 0x1_0000

  // The size limit of a piece, in elements.
  function SampleElements(budgetBytes: nat, elementBytes: nat): (most: nat)
    requires elementBytes > 0
    ensures most > 0
    ensures budgetBytes >= elementBytes ==> most * elementBytes <= budgetBytes
  {
    B.AtOrPast(budgetBytes / elementBytes, budgetBytes, elementBytes);
    B.AtOrPast(1, budgetBytes, elementBytes);
    if budgetBytes == 0 then SAMPLE_ELEMENTS else B.Max(1, budgetBytes / elementBytes)
  }

  datatype Prefetched = Decoded(chunks: nat) | Unfinished(failure: ReadFailure)

  // The reads that sampled one layout: one element of every chunk the request touches, in pieces of at
  // most so many.
  datatype Sampling = Sampling(sample: ReadRequest, width: nat, corners: seq<seq<nat>>, cuts: seq<nat>)

  ghost predicate SampledBy(sampling: Sampling, made: seq<ReadRequest>, request: ReadRequest, shape: seq<nat>,
                            most: nat) {
    && IsSample(sampling.sample, request, shape)
    && Sliced(sampling.sample, sampling.width, made, sampling.corners, sampling.cuts) && AtMost(made, most)
  }

  // ---- A piece of a sample is a read of the image ----

  lemma SliceServes(axes: seq<Axis>, request: ReadRequest, piece: ReadRequest, corner: seq<nat>)
    requires Serves(axes, request) && IsCorner(request, piece, corner)
    ensures Serves(axes, piece)
  {
    forall i | 0 <= i < |axes| ensures ServesAxis(axes, piece, i) {
      assert ServesAxis(axes, request, i);
      LastInside(request[i].start, corner[i], corner[i] + piece[i].count, request[i].count, request[i].stride);
    }
  }

  lemma SlicedServes(axes: seq<Axis>, request: ReadRequest, width: nat, pieces: seq<ReadRequest>,
                     corners: seq<seq<nat>>, cuts: seq<nat>, i: nat)
    requires Serves(axes, request) && Sliced(request, width, pieces, corners, cuts) && i < |pieces|
    ensures Serves(axes, pieces[i])
  {
    hide Serves, Product, IsCorner;
    assert IsSlice(request, width, pieces[i], corners[i], cuts[i], cuts[i + 1]);
    SliceServes(axes, request, pieces[i], corners[i]);
  }

  lemma ServesSelecting(axes: seq<Axis>, request: ReadRequest)
    requires Serves(axes, request)
    ensures Selecting(request) && |request| == |axes|
  {
    ReadyToPlan(axes, request);
  }

  // ---- Why it stopped ----

  // `made` are the reads the failing sample was cut into.
  ghost predicate Stopped(failure: ReadFailure, axes: seq<Axis>, request: ReadRequest, applyMask: bool,
                          allowed: nat -> bool, source: PixelSource, made: seq<ReadRequest>)
  {
    match failure
    case Refused(_) => !Accepted(axes, request)
    case NotAllowed => Accepted(axes, request) && exists i :: !allowed(i)
    case PixelsUnread(_, _) =>
      Accepted(axes, request) && exists i :: 0 <= i < |made| && PartFails(source, axes, made[i])
    case MaskUnread(_) =>
      Accepted(axes, request) && applyMask && exists i :: 0 <= i < |made| && MaskFails(source, axes, made[i])
    case _ => false
  }

  // The pixels of some piece of a read cannot be had.
  ghost predicate PartFails(source: PixelSource, axes: seq<Axis>, request: ReadRequest) {
    exists piece: Piece :: |request| == |axes| && Part(axes, request, piece) && PixelsFail(source, axes, piece.request)
  }

  lemma PixelsStopped(axes: seq<Axis>, request: ReadRequest, made: seq<ReadRequest>, i: nat, r: ReadResult,
                      now: seq<Double>, was: seq<Double>, stored: StoredImage, options: ReadOptions,
                      source: PixelSource, reported: seq<nat>, pieces: seq<Piece>, applyMask: bool,
                      allowed: nat -> bool)
    requires i < |made| && Accepted(axes, request) && Accepted(axes, made[i]) && Product(Counts(made[i])) <= |was|
    requires r.Failed? && Ended(r, now, was, axes, made[i], stored, options, source, reported, pieces)
    requires pieces != [] ==> |made[i]| == |axes| && Tiles(axes, made[i], pieces)
    requires !options.applyMask && reported == [] && options.allowed == allowed(i + 1)
    ensures Stopped(r.failure, axes, request, applyMask, allowed, source, made) && !r.failure.MaskUnread?
  {
    hide Accepted, Product, Left, MaskFails, PixelsFail, Part;
    if r.failure.PixelsUnread? {
      var k :| 0 <= k < |pieces| && Stops(r.failure, pieces[k], axes, options, source);
      assert Part(axes, made[i], pieces[k]);
      assert PartFails(source, axes, made[i]);
    }
  }

  lemma PieceAccepted(axes: seq<Axis>, sample: ReadRequest, width: nat, pieces: seq<ReadRequest>,
                      corners: seq<seq<nat>>, cuts: seq<nat>, i: nat, most: nat)
    requires Serves(axes, sample) && Sliced(sample, width, pieces, corners, cuts) && i < |pieces|
    requires AtMost(pieces, most) && most <= MAX_UINT64
    ensures Accepted(axes, pieces[i]) && Product(Counts(pieces[i])) <= most
  {
    hide Product, Serves, Sliced;
    SlicedServes(axes, sample, width, pieces, corners, cuts, i);
  }

  // The sample of an accepted request is one too, and counts the chunks the request touches.
  lemma SampleAccepted(axes: seq<Axis>, request: ReadRequest, sample: ReadRequest, shape: seq<nat>)
    requires Accepted(axes, request) && IsSample(sample, request, shape)
    ensures Serves(axes, sample) && Selecting(sample) && |sample| == |axes|
    ensures 0 < Product(Counts(sample)) == ChunksOf(request, shape) <= MAX_UINT64
  {
    hide Product, Serves, IsSample, ChunksOf, Selecting;
    AcceptedMeans(axes, request);
    ServesSelecting(axes, request);
    SampleServes(axes, request, sample, shape);
    ServesSelecting(axes, sample);
    SampleIsChunks(request, sample, shape);
    SampleHolds(sample);
  }

  lemma SampleHolds(sample: ReadRequest)
    requires Selecting(sample)
    ensures Product(Counts(sample)) > 0
  {
    hide Product;
    ProductPositive(Counts(sample));
  }

  // The pixels of a sample, a piece at a time, through one buffer.
  method PrefetchPixels(axes: seq<Axis>, ghost request: ReadRequest, ghost sample: ReadRequest,
                        pieces: seq<ReadRequest>,
                        ghost width: nat, ghost corners: seq<seq<nat>>, ghost cuts: seq<nat>, most: nat,
                        options: ReadOptions, ghost applyMask: bool, allowed: nat -> bool, source: PixelSource,
                        leaves: PixelSelection -> seq<Double>, ghost stored: StoredImage)
    returns (failure: Option<ReadFailure>)
    requires StoredApart(axes) && ServesImage(source, stored) && forall s: PixelSelection :: |leaves(s)| == s.elements
    requires Accepted(axes, request) && Serves(axes, sample) && Sliced(sample, width, pieces, corners, cuts)
    requires AtMost(pieces, most) && most <= MAX_UINT64
    ensures failure.Some? ==> Stopped(failure.value, axes, request, applyMask, allowed, source, pieces)
    ensures failure.Some? ==> !failure.value.MaskUnread?
  {
    hide *;
    var discarded := new Double[most];
    for i := 0 to |pieces| {
      PieceAccepted(axes, sample, width, pieces, corners, cuts, i, most);
      ghost var was := discarded[..];
      var mine := options.(applyMask := false, allowed := allowed(i + 1));
      var r, reported, _, parts, _, _ := ReadInPieces(axes, pieces[i], discarded, mine, source, leaves, None, stored);
      if r.Failed? {
        PixelsStopped(axes, request, pieces, i, r, discarded[..], was, stored, mine, source, reported, parts,
                      applyMask, allowed);
        return Some(r.failure);
      }
    }
    failure := None;
  }

  // The flag of a sample, a piece at a time.
  method PrefetchFlags(axes: seq<Axis>, ghost request: ReadRequest, ghost sample: ReadRequest, pieces: seq<ReadRequest>,
                       ghost width: nat, ghost corners: seq<seq<nat>>, ghost cuts: seq<nat>, ghost most: nat,
                       ghost allowed: nat -> bool, source: PixelSource)
    returns (failure: Option<ReadFailure>)
    requires StoredApart(axes)
    requires Accepted(axes, request) && Serves(axes, sample) && Sliced(sample, width, pieces, corners, cuts)
    requires AtMost(pieces, most) && most <= MAX_UINT64
    ensures failure.Some? ==> Stopped(failure.value, axes, request, true, allowed, source, pieces)
    ensures failure.Some? ==> failure.value.MaskUnread?
  {
    hide *;
    for i := 0 to |pieces| {
      PieceAccepted(axes, sample, width, pieces, corners, cuts, i, most);
      AcceptedMeans(axes, pieces[i]);
      var selection := BuildSelection(axes, pieces[i], Logical);
      ItIsSelection(selection.value, axes, pieces[i]);
      var read := source.readMask(selection.value);
      if read.None? {
        FlagStopped(axes, request, allowed, source, selection.value, pieces, i);
        return Some(MaskUnread(0));
      }
    }
    failure := None;
  }

  lemma FlagStopped(axes: seq<Axis>, request: ReadRequest, allowed: nat -> bool, source: PixelSource,
                    s: PixelSelection, made: seq<ReadRequest>, i: nat)
    requires i < |made| && Accepted(axes, request) && source.readMask(s).None? && IsSelection(s, axes, made[i])
    ensures Stopped(MaskUnread(0), axes, request, true, allowed, source, made)
  {
    hide Accepted, IsSelection;
    assert MaskFails(source, axes, made[i]);
  }

  lemma TurnedAwayIsStopped(failure: ReadFailure, axes: seq<Axis>, request: ReadRequest, applyMask: bool,
                            allowed: nat -> bool, source: PixelSource, made: seq<ReadRequest>)
    requires if Accepted(axes, request) then failure.NotAllowed? && !allowed(0) else failure.Refused?
    ensures Stopped(failure, axes, request, applyMask, allowed, source, made)
  {
    hide Accepted;
  }

  // Finished, it has read exactly one element of every chunk the request touches, pixel or flag, none twice
  // and none of any other, in reads the budget affords; and it says how many those are.
  method PrefetchChunks(axes: seq<Axis>, flagShape: seq<nat>, request: ReadRequest, options: ReadOptions,
                        allowed: nat -> bool, source: PixelSource, leaves: PixelSelection -> seq<Double>,
                        ghost stored: StoredImage)
    returns (r: Prefetched, pixelReads: seq<ReadRequest>, flagReads: seq<ReadRequest>,
             ghost pixels: Sampling, ghost flags: Sampling)
    requires StoredApart(axes) && ServesImage(source, stored) && forall s: PixelSelection :: |leaves(s)| == s.elements
    ensures r.Unfinished? ==>
              Stopped(r.failure, axes, request, options.applyMask, allowed, source,
                      if r.failure.MaskUnread? then flagReads else pixelReads)
    ensures !Accepted(axes, request) || !allowed(0) ==> r.Unfinished?
    ensures r.Decoded? ==>
              && SampledBy(pixels, pixelReads, request, options.chunkShape, SampleElements(options.readBudgetBytes, 4))
              && r.chunks == ChunksOf(request, options.chunkShape)
                             + if options.applyMask then ChunksOf(request, flagShape) else 0
    ensures r.Decoded? && options.applyMask ==>
              && SampledBy(flags, flagReads, request, flagShape, SampleElements(options.readBudgetBytes, 1))
              && FlagReadsAfforded(flagReads, FlagShape(options.chunkShape, flagShape), options.readBudgetBytes)
    ensures r.Decoded? && !options.applyMask ==> flagReads == []
  {
    hide *;
    pixels, flags := Sampling([], 0, [], []), Sampling([], 0, [], []);
    pixelReads, flagReads := [], [];
    var checked := BuildSelection(axes, request, Logical);
    ItIsAccepted(axes, request);
    if checked.Err? {
      r := Unfinished(Refused(checked.error));
      TurnedAwayIsStopped(r.failure, axes, request, options.applyMask, allowed, source, pixelReads);
      return;
    }
    if !allowed(0) {
      r := Unfinished(NotAllowed);
      TurnedAwayIsStopped(r.failure, axes, request, options.applyMask, allowed, source, pixelReads);
      return;
    }
    AcceptedMeans(axes, request);
    ServesSelecting(axes, request);
    var sample := OneElementPerChunk(options.chunkShape, request);
    SampleAccepted(axes, request, sample, options.chunkShape);
    var chunks := Samples.Elements(sample);
    var most := B.Min(chunks, SampleElements(options.readBudgetBytes, 4));
    SmallerOf(chunks, SampleElements(options.readBudgetBytes, 4));
    ghost var corners: seq<seq<nat>>, cuts: seq<nat>, width: nat;
    pixelReads, corners, cuts, width := ForEachPiece(sample, most);
    pixels := Sampling(sample, width, corners, cuts);
    ItSampled(pixels, pixelReads, request, options.chunkShape, most, SampleElements(options.readBudgetBytes, 4));
    var failure := PrefetchPixels(axes, request, sample, pixelReads, width, corners, cuts, most, options,
                                  options.applyMask, allowed, source, leaves, stored);
    if failure.Some? {
      r := Unfinished(failure.value);
      return;
    }
    if !options.applyMask {
      r := Decoded(chunks);
      return;
    }
    var flagSample := OneElementPerChunk(flagShape, request);
    SampleAccepted(axes, request, flagSample, flagShape);
    var flagChunks := Samples.Elements(flagSample);
    var room := B.Min(flagChunks, SampleElements(options.readBudgetBytes, 1));
    SmallerOf(flagChunks, SampleElements(options.readBudgetBytes, 1));
    var chunkBytes := ChunkElements(FlagShape(options.chunkShape, flagShape));
    var afforded := B.Max(1, FlagBudget(options.readBudgetBytes, chunkBytes) / chunkBytes);
    var flagPiece := B.Min(room, afforded);
    AtLeastOne(FlagBudget(options.readBudgetBytes, chunkBytes) / chunkBytes);
    SmallerOf(room, afforded);
    flagReads, corners, cuts, width := ForEachPiece(flagSample, flagPiece);
    flags := Sampling(flagSample, width, corners, cuts);
    ItSampled(flags, flagReads, request, flagShape, flagPiece, SampleElements(options.readBudgetBytes, 1));
    ItAffords(flagReads, FlagShape(options.chunkShape, flagShape), options.readBudgetBytes, flagPiece, chunkBytes);
    failure := PrefetchFlags(axes, request, flagSample, flagReads, width, corners, cuts, flagPiece, allowed, source);
    if failure.Some? {
      r := Unfinished(failure.value);
      return;
    }
    r := Decoded(chunks + flagChunks);
  }

  function FlagBudget(readBudgetBytes: nat, chunkBytes: nat): nat {
    if readBudgetBytes != 0 then readBudgetBytes else DefaultReadBytes(chunkBytes)
  }

  // Each read of the flag decodes no more than the budget, or one chunk.
  ghost predicate FlagReadsAfforded(made: seq<ReadRequest>, shape: seq<nat>, budgetBytes: nat) {
    var chunkBytes := Product(Extents(shape));
    forall i :: 0 <= i < |made| ==>
      Product(Counts(made[i])) * chunkBytes <= B.Max(chunkBytes, FlagBudget(budgetBytes, chunkBytes))
  }

  lemma ItAffords(made: seq<ReadRequest>, shape: seq<nat>, budgetBytes: nat, most: nat, chunkBytes: nat)
    requires AtMost(made, most) && chunkBytes == Product(Extents(shape)) > 0
    requires most <= B.Max(1, FlagBudget(budgetBytes, chunkBytes) / chunkBytes)
    ensures FlagReadsAfforded(made, shape, budgetBytes)
  {
    hide Product, FlagBudget;
    forall i | 0 <= i < |made|
      ensures Product(Counts(made[i])) * chunkBytes <= B.Max(chunkBytes, FlagBudget(budgetBytes, chunkBytes))
    {
      var n := Product(Counts(made[i]));
      if n > 1 { B.AtOrPast(n, FlagBudget(budgetBytes, chunkBytes), chunkBytes); } else { B.MulMono(n, 1, chunkBytes); }
    }
  }

  lemma ItIsAccepted(axes: seq<Axis>, request: ReadRequest)
    ensures Accepted(axes, request) <==> Serves(axes, request) && Product(Counts(request)) <= MAX_UINT64
  {}

  lemma SmallerOf(a: nat, b: nat)
    ensures B.Min(a, b) <= a && B.Min(a, b) <= b && (a > 0 && b > 0 ==> B.Min(a, b) > 0)
  {}

  lemma AtLeastOne(n: nat)
    ensures B.Max(1, n) > 0
  {}

  lemma ItSampled(sampling: Sampling, made: seq<ReadRequest>, request: ReadRequest, shape: seq<nat>, most: nat,
                  limit: nat)
    requires IsSample(sampling.sample, request, shape)
    requires Sliced(sampling.sample, sampling.width, made, sampling.corners, sampling.cuts)
    requires AtMost(made, most) && most <= limit
    ensures SampledBy(sampling, made, request, shape, limit)
  {
    hide IsSample, Sliced, Product;
  }
}
