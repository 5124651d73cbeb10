// An ordinary read, one piece at a time: ReadInPieces, src/read/pieces_read.cc.

module PiecedReads {
  import opened Wrappers
  import opened Values
  import opened PixelSelections
  import opened SlabReads
  import opened Pieces
  import B = ChunkBlocks

  // ---- What a read shows ----

  // The pixel a read gives for a stored element.
  function Seen(stored: StoredImage, applyMask: bool, at: seq<nat>): Double {
    if applyMask then Masked(stored.pixel(at), stored.flag(at)) else stored.pixel(at)
  }

  // The first n elements of a destination are the request's, in its own order with axis 0 fastest.
  ghost predicate Shows(destination: seq<Double>, axes: seq<Axis>, request: ReadRequest, stored: StoredImage,
                        applyMask: bool, n: nat)
    requires |request| == |axes|
  {
    && n <= |destination|
    && forall k :: Inside(Counts(request), k) && PlaceIn(Counts(request), k) < n ==>
         ShowsAt(destination, axes, request, stored, applyMask, k)
  }

  ghost predicate ShowsAt(destination: seq<Double>, axes: seq<Axis>, request: ReadRequest, stored: StoredImage,
                          applyMask: bool, k: seq<nat>)
    requires |request| == |axes| == |k|
  {
    var place := PlaceIn(Counts(request), k);
    place < |destination| && destination[place] == Seen(stored, applyMask, StoredAt(axes, request, k))
  }

  // Which says what every one of them is: two that show the whole request are the same.
  lemma ShownAlike(a: seq<Double>, b: seq<Double>, axes: seq<Axis>, request: ReadRequest, stored: StoredImage,
                   applyMask: bool)
    requires |request| == |axes| && |b| >= |a| == Product(Counts(request))
    requires Shows(a, axes, request, stored, applyMask, |a|) && Shows(b, axes, request, stored, applyMask, |a|)
    ensures a == b[..|a|]
  {
    hide Product, PlaceIn, Seen, StoredAt;
    forall p: nat | p < |a| ensures a[p] == b[p] {
      var k := APlaceFor(Counts(request), p);
      assert ShowsAt(a, axes, request, stored, applyMask, k) && ShowsAt(b, axes, request, stored, applyMask, k);
    }
  }

  // The stored coordinates of a read's element.
  ghost function InStoredOrder(axes: seq<Axis>, k: seq<nat>): (kk: seq<nat>)
    requires |k| == |axes|
    ensures |kk| == |axes|
  {
    seq(|axes|, d requires 0 <= d < |axes| => var i := AxisAt(axes, d); if i < |k| then k[i] else 0)
  }

  lemma ElementOfRead(axes: seq<Axis>, request: ReadRequest, s: PixelSelection, k: seq<nat>)
    requires StoredApart(axes) && Onto(axes) && s.Valid() && Selects(s, axes, request, |axes|)
    requires OrderIs(s, axes, Logical, |axes|) && Inside(Counts(request), k)
    ensures |s.count| == |axes| == |request|
    ensures var kk := InStoredOrder(axes, k);
            && Inside(s.count, kk) && Coordinates(s, kk) == StoredAt(axes, request, k)
            && InOrder(s.destinationToStored, s.count) == Counts(request) && InOrder(s.destinationToStored, kk) == k
  {
    var kk := InStoredOrder(axes, k);
    hide AxisAt, StoredApart, PixelSelection.Valid, StrideOf;
    forall d | 0 <= d < |axes|
      ensures kk[d] < s.count[d] && s.start[d] + kk[d] * s.stride[d] == StoredAt(axes, request, k)[d]
    {
      var i := AxisAt(axes, d);
      assert SelectsAxis(s, axes[i].storageIndex, request[i]) && kk[d] == k[i] < Counts(request)[i];
      Step(request[i], k[i]);
    }
    forall i | 0 <= i < |axes|
      ensures s.destinationToStored[i] < |s.count| && s.count[s.destinationToStored[i]] == request[i].count
      ensures kk[s.destinationToStored[i]] == k[i]
    {
      assert SelectsAxis(s, axes[i].storageIndex, request[i]);
      AxisAtIs(axes, i);
    }
  }

  // One selection, read and masked whole, shows its request.
  lemma ReadShows(axes: seq<Axis>, request: ReadRequest, source: PixelSource, stored: StoredImage, s: PixelSelection,
                  strides: seq<nat>, applyMask: bool, pixels: seq<Double>)
    requires StoredApart(axes) && s.Valid() && Selects(s, axes, request, |axes|) && OrderIs(s, axes, Logical, |axes|)
    requires ServesImage(source, stored) && StridesOf(s, strides) && Folded(applyMask, source, s, pixels)
    ensures |request| == |axes| && |pixels| == Product(Counts(request)) == s.elements
    ensures Shows(pixels, axes, request, stored, applyMask, |pixels|)
  {
    hide *;
    EveryDimensionIsAnAxis(axes, request, s);
    SelectionShape(axes, request, s, strides);
    HowMany(axes, request, s);
    ReadIsFilled(source, stored, s, strides);
    FoldedSize(applyMask, source, s, pixels);
    forall k | Inside(Counts(request), k)
      ensures |k| == |axes| && ShowsAt(pixels, axes, request, stored, applyMask, k)
    {
      ReadShowsAt(axes, request, source, stored, s, strides, applyMask, pixels, k);
    }
    ItShowsAll(pixels, axes, request, stored, applyMask);
  }

  lemma ItShowsAll(pixels: seq<Double>, axes: seq<Axis>, request: ReadRequest, stored: StoredImage, applyMask: bool)
    requires |request| == |axes|
    requires forall k :: Inside(Counts(request), k) ==>
               |k| == |axes| && ShowsAt(pixels, axes, request, stored, applyMask, k)
    ensures Shows(pixels, axes, request, stored, applyMask, |pixels|)
  {
    hide PlaceIn, ShowsAt;
  }

  lemma HowMany(axes: seq<Axis>, request: ReadRequest, s: PixelSelection)
    requires s.Valid() && Selects(s, axes, request, |axes|)
    requires OrderIs(s, axes, Logical, |axes|)
    ensures |request| == |axes| && s.elements == Product(Counts(request))
  {
    hide Product, AxisAt, StoredApart;
    forall i | 0 <= i < |axes|
      ensures s.destinationToStored[i] < |s.count| && s.count[s.destinationToStored[i]] == request[i].count
    {
      assert SelectsAxis(s, axes[i].storageIndex, request[i]);
    }
    assert InOrder(s.destinationToStored, s.count) == Counts(request);
    ProductOfOrder(s.destinationToStored, s.count);
  }

  lemma FoldedSize(applyMask: bool, source: PixelSource, s: PixelSelection, pixels: seq<Double>)
    requires Folded(applyMask, source, s, pixels)
    ensures source.readPixels(s).Some? && |source.readPixels(s).value| == |pixels|
  {}

  lemma ReadShowsAt(axes: seq<Axis>, request: ReadRequest, source: PixelSource, stored: StoredImage, s: PixelSelection,
                    strides: seq<nat>, applyMask: bool, pixels: seq<Double>, k: seq<nat>)
    requires StoredApart(axes) && Onto(axes) && s.Valid() && Selects(s, axes, request, |axes|)
    requires OrderIs(s, axes, Logical, |axes|) && Inside(Counts(request), k)
    requires ServesImage(source, stored) && StridesOf(s, strides) && Folded(applyMask, source, s, pixels)
    ensures |request| == |axes| == |k| && ShowsAt(pixels, axes, request, stored, applyMask, k)
  {
    hide *;
    SelectionShape(axes, request, s, strides);
    SizeOf(request, k);
    ElementOfRead(axes, request, s, k);
    var kk := InStoredOrder(axes, k);
    PlaceIsDense(s, strides, kk);
    FoldedAt(applyMask, source, stored, s, strides, pixels, kk);
    ShowsThere(pixels, axes, request, stored, applyMask, k);
  }

  lemma SizeOf(request: ReadRequest, k: seq<nat>)
    requires Inside(Counts(request), k)
    ensures |k| == |request|
  {}

  lemma ShowsThere(pixels: seq<Double>, axes: seq<Axis>, request: ReadRequest, stored: StoredImage, applyMask: bool,
                   k: seq<nat>)
    requires |request| == |axes| == |k| && PlaceIn(Counts(request), k) < |pixels|
    requires pixels[PlaceIn(Counts(request), k)]
          == var at := StoredAt(axes, request, k);
             if applyMask then Masked(stored.pixel(at), stored.flag(at)) else stored.pixel(at)
    ensures ShowsAt(pixels, axes, request, stored, applyMask, k)
  {
    hide PlaceIn, StoredAt, Masked;
  }

  // So a destination that shows the request is, element for element, one unsplit masked read of it, from
  // whatever serves the image.
  lemma PiecedIsUnsplit(axes: seq<Axis>, request: ReadRequest, source: PixelSource, stored: StoredImage,
                        s: PixelSelection, strides: seq<nat>, applyMask: bool, unsplit: seq<Double>,
                        destination: seq<Double>)
    requires StoredApart(axes) && s.Valid() && Selects(s, axes, request, |axes|) && OrderIs(s, axes, Logical, |axes|)
    requires ServesImage(source, stored) && StridesOf(s, strides) && Folded(applyMask, source, s, unsplit)
    requires |request| == |axes| && Shows(destination, axes, request, stored, applyMask, Product(Counts(request)))
    ensures |unsplit| == s.elements <= |destination| && destination[..s.elements] == unsplit
  {
    hide *;
    ReadShows(axes, request, source, stored, s, strides, applyMask, unsplit);
    LongEnough(destination, axes, request, stored, applyMask, Product(Counts(request)));
    ShownAlike(unsplit, destination, axes, request, stored, applyMask);
  }

  lemma LongEnough(destination: seq<Double>, axes: seq<Axis>, request: ReadRequest, stored: StoredImage,
                   applyMask: bool, n: nat)
    requires |request| == |axes| && Shows(destination, axes, request, stored, applyMask, n)
    ensures n <= |destination|
  {}

  // ---- Pieces tile the destination ----

  ghost function Size(piece: Piece): nat { Product(Counts(piece.request)) }

  // A piece holds the elements of its stretch of the destination, each in its place.
  ghost predicate Part(axes: seq<Axis>, request: ReadRequest, piece: Piece)
    requires |request| == |axes|
  {
    && Serves(axes, piece.request) && Size(piece) <= Product(Counts(request))
    && forall k :: Inside(Counts(request), k) && Covers(piece, PlaceIn(Counts(request), k)) ==>
         InPiece(axes, request, piece, k)
  }

  ghost predicate Covers(piece: Piece, place: nat) {
    piece.firstElement <= place < piece.firstElement + Size(piece)
  }

  ghost predicate InPiece(axes: seq<Axis>, request: ReadRequest, piece: Piece, k: seq<nat>)
    requires |request| == |axes| == |piece.request| == |k|
  {
    exists k' :: IsElement(axes, request, piece, k, k')
  }

  // The element k of the request is the piece's k'.
  ghost predicate IsElement(axes: seq<Axis>, request: ReadRequest, piece: Piece, k: seq<nat>, k': seq<nat>)
    requires |request| == |axes| == |piece.request| == |k|
  {
    && Inside(Counts(piece.request), k')
    && StoredAt(axes, piece.request, k') == StoredAt(axes, request, k)
    && PlaceIn(Counts(request), k) == piece.firstElement + PlaceIn(Counts(piece.request), k')
  }

  // Where the piece after the first i lands, and what the pieces before it have filled.
  ghost function First(pieces: seq<Piece>, i: nat): nat
    requires i <= |pieces|
  {
    if i < |pieces| then pieces[i].firstElement
    else if i == 0 then 0
    else pieces[i - 1].firstElement + Size(pieces[i - 1])
  }

  ghost predicate Tiles(axes: seq<Axis>, request: ReadRequest, pieces: seq<Piece>)
    requires |request| == |axes|
  {
    && pieces != [] && First(pieces, 0) == 0 && First(pieces, |pieces|) == Product(Counts(request))
    && forall i :: 0 <= i < |pieces| ==>
         Part(axes, request, pieces[i]) && First(pieces, i + 1) == pieces[i].firstElement + Size(pieces[i])
  }

  lemma NarrowedServes(axes: seq<Axis>, request: ReadRequest, axis: nat, begin: nat, end: nat)
    requires Serves(axes, request) && axis < |request| && begin < end <= request[axis].count
    ensures Serves(axes, Narrowed(request, axis, begin, end))
  {
    var narrowed := Narrowed(request, axis, begin, end);
    forall i | 0 <= i < |axes| ensures ServesAxis(axes, narrowed, i) {
      assert ServesAxis(axes, request, i);
      if i == axis { LastInside(request[axis].start, begin, end, request[axis].count, request[axis].stride); }
    }
  }

  lemma LastInside(start: nat, begin: nat, end: nat, count: nat, stride: nat)
    requires begin < end <= count
    ensures start + begin * stride + (end - begin - 1) * stride <= start + (count - 1) * stride
  {
    StepAlong(start, begin, end - begin - 1, stride);
    B.MulMono(end - 1, count - 1, stride);
  }

  lemma WholeIsPart(axes: seq<Axis>, request: ReadRequest)
    requires Serves(axes, request)
    ensures Tiles(axes, request, [Piece(request, 0)])
  {
    var piece := Piece(request, 0);
    hide Product, PlaceIn, StoredAt, ServesAxis;
    forall k | Inside(Counts(request), k) ensures InPiece(axes, request, piece, k) {
      assert IsElement(axes, request, piece, k, k);
    }
    assert Part(axes, request, piece);
  }

  lemma CutIsPart(axes: seq<Axis>, request: ReadRequest, axis: nat, begin: nat, end: nat, piece: Piece)
    requires Serves(axes, request) && axis < |request| && begin < end <= request[axis].count
    requires forall i :: axis < i < |request| ==> request[i].count == 1
    requires piece == Piece(Narrowed(request, axis, begin, end), begin * UnitElements(request, axis))
    ensures Part(axes, request, piece)
    ensures piece.firstElement + Size(piece) == end * UnitElements(request, axis)
    ensures end == request[axis].count ==> end * UnitElements(request, axis) == Product(Counts(request))
  {
    NarrowedServes(axes, request, axis, begin, end);
    PieceFills(request, axis, begin, end);
    hide Product, PlaceIn, StoredAt, ServesAxis, UnitElements, Narrowed, IsElement;
    forall k | Inside(Counts(request), k) && Covers(piece, PlaceIn(Counts(request), k))
      ensures InPiece(axes, request, piece, k)
    {
      CutHolds(axes, request, axis, begin, end, piece, k);
      assert IsElement(axes, request, piece, k, k[axis := k[axis] - begin]);
    }
  }

  lemma CutHolds(axes: seq<Axis>, request: ReadRequest, axis: nat, begin: nat, end: nat, piece: Piece, k: seq<nat>)
    requires |request| == |axes| && axis < |request| && begin < end <= request[axis].count
    requires forall i :: axis < i < |request| ==> request[i].count == 1
    requires piece == Piece(Narrowed(request, axis, begin, end), begin * UnitElements(request, axis))
    requires Inside(Counts(request), k)
    requires begin * UnitElements(request, axis) <= PlaceIn(Counts(request), k) < end * UnitElements(request, axis)
    ensures |k| == |request| && begin <= k[axis]
    ensures IsElement(axes, request, piece, k, k[axis := k[axis] - begin])
  {
    hide Product, PlaceIn, StoredAt, UnitElements, Narrowed;
    ElementAtPlace(request, axis, begin, end, k);
    PieceElement(axes, request, axis, begin, end, k);
    PieceLands(request, axis, begin, end, k);
  }

  lemma PlannedTiles(axes: seq<Axis>, request: ReadRequest, shape: seq<nat>, pieces: seq<Piece>, axis: Option<nat>,
                     cuts: seq<nat>)
    requires Serves(axes, request) && Planned(pieces, request, shape, axis, cuts)
    ensures Tiles(axes, request, pieces)
  {
    if axis.None? {
      WholeIsPart(axes, request);
    } else {
      CutTiles(axes, request, axis.value, pieces, cuts);
    }
  }

  lemma CutTiles(axes: seq<Axis>, request: ReadRequest, axis: nat, pieces: seq<Piece>, cuts: seq<nat>)
    requires Serves(axes, request) && axis < |request| && CutAt(pieces, request, axis, cuts)
    requires cuts[|pieces|] == request[axis].count && forall i :: axis < i < |request| ==> request[i].count == 1
    ensures Tiles(axes, request, pieces)
  {
    assert ServesAxis(axes, request, axis);
    assert pieces != [] && cuts[0] == 0;
    CutFirst(request, axis, pieces, cuts, 0);
    hide *;
    forall i | 0 <= i < |pieces|
      ensures Part(axes, request, pieces[i]) && First(pieces, i + 1) == pieces[i].firstElement + Size(pieces[i])
    {
      CutAtTiles(axes, request, axis, pieces, cuts, i);
    }
    CutAtTiles(axes, request, axis, pieces, cuts, |pieces| - 1);
    TheyTile(axes, request, pieces);
  }

  lemma TheyTile(axes: seq<Axis>, request: ReadRequest, pieces: seq<Piece>)
    requires |request| == |axes| && pieces != [] && pieces[0].firstElement == 0
    requires First(pieces, |pieces|) == Product(Counts(request))
    requires forall i :: 0 <= i < |pieces| ==>
              Part(axes, request, pieces[i]) && First(pieces, i + 1) == pieces[i].firstElement + Size(pieces[i])
    ensures Tiles(axes, request, pieces)
  {
    hide Part, Size, Product, Counts;
  }

  lemma CutAtTiles(axes: seq<Axis>, request: ReadRequest, axis: nat, pieces: seq<Piece>, cuts: seq<nat>, i: nat)
    requires Serves(axes, request) && axis < |request| && CutAt(pieces, request, axis, cuts) && i < |pieces|
    requires |cuts| == |pieces| + 1 && cuts[|pieces|] == request[axis].count
    requires forall k :: axis < k < |request| ==> request[k].count == 1
    ensures Part(axes, request, pieces[i]) && First(pieces, i + 1) == pieces[i].firstElement + Size(pieces[i])
    ensures i + 1 == |pieces| ==> First(pieces, i + 1) == Product(Counts(request))
  {
    CutsAscend(pieces, request, axis, cuts, i + 1, |pieces|);
    CutIsPart(axes, request, axis, cuts[i], cuts[i + 1], pieces[i]);
    if i + 1 < |pieces| { CutFirst(request, axis, pieces, cuts, i + 1); }
    hide Product, UnitElements, Narrowed, Serves, Part, Size, Counts;
  }

  lemma CutFirst(request: ReadRequest, axis: nat, pieces: seq<Piece>, cuts: seq<nat>, i: nat)
    requires axis < |request| && CutAt(pieces, request, axis, cuts) && i < |pieces|
    ensures pieces[i].firstElement == cuts[i] * UnitElements(request, axis)
  {
    assert cuts[i] < cuts[i + 1];
    hide UnitElements, Narrowed;
  }

  // ---- Reading ----

  datatype ReadFailure =
    | Refused(refusal: Refusal)
    | BufferTooSmall
    | NotAllowed
    | MaskOverBudget(from: nat, elements: nat)
    | MaskUnread(from: nat)
    | PixelsUnread(from: nat, elements: nat)
    | StoppedByProgress

  datatype ReadResult = Read(elements: nat) | Failed(failure: ReadFailure)

  // What a reader asks for beyond the request, and what the planning makes of its costs.
  datatype ReadOptions = ReadOptions(applyMask: bool, readBudgetBytes: nat, allowed: bool,
                                     chunkShape: seq<nat>, chunkBytes: nat, budgetBytes: nat)

  // One piece more.
  lemma OneMorePiece(axes: seq<Axis>, request: ReadRequest, stored: StoredImage, applyMask: bool, piece: Piece,
                     before: seq<Double>, pixels: seq<Double>, after: seq<Double>)
    requires |request| == |axes| && Part(axes, request, piece) && |pixels| == Size(piece)
    requires Shows(before, axes, request, stored, applyMask, piece.firstElement)
    requires Shows(pixels, axes, piece.request, stored, applyMask, |pixels|)
    requires |before| == |after| && piece.firstElement + |pixels| <= |after|
    requires forall p :: 0 <= p < piece.firstElement ==> after[p] == before[p]
    requires forall p :: 0 <= p < |pixels| ==> after[piece.firstElement + p] == pixels[p]
    ensures Shows(after, axes, request, stored, applyMask, piece.firstElement + |pixels|)
  {
    hide Product, PlaceIn, StoredAt, Seen, Size, Serves, Part;
    forall k | Inside(Counts(request), k) && PlaceIn(Counts(request), k) < piece.firstElement + |pixels|
      ensures ShowsAt(after, axes, request, stored, applyMask, k)
    {
      if PlaceIn(Counts(request), k) < piece.firstElement {
        assert ShowsAt(before, axes, request, stored, applyMask, k);
      } else {
        PartHolds(axes, request, piece, k);
        var k' :| IsElement(axes, request, piece, k, k');
        assert PlaceIn(Counts(piece.request), k') < |pixels|;
        assert ShowsAt(pixels, axes, piece.request, stored, applyMask, k');
      }
    }
  }

  lemma PartHolds(axes: seq<Axis>, request: ReadRequest, piece: Piece, k: seq<nat>)
    requires |request| == |axes| && Part(axes, request, piece) && Inside(Counts(request), k)
    requires Covers(piece, PlaceIn(Counts(request), k))
    ensures |k| == |request| == |piece.request| && InPiece(axes, request, piece, k)
  {
    hide PlaceIn, IsElement;
  }

  // The destination once its first `shown` elements are the request's and nothing from `touched` on has
  // been written.
  ghost predicate Left(now: seq<Double>, was: seq<Double>, axes: seq<Axis>, request: ReadRequest, stored: StoredImage,
                       applyMask: bool, shown: nat, touched: nat)
    requires |request| == |axes|
  {
    && |now| == |was| && shown <= touched <= |was|
    && Shows(now, axes, request, stored, applyMask, shown)
    && forall p :: touched <= p < |was| ==> now[p] == was[p]
  }

  // What is asked of the store for a request; and that the store does not answer it.
  ghost predicate IsSelection(s: PixelSelection, axes: seq<Axis>, request: ReadRequest) {
    && |request| == |axes| && s.Valid()
    && Selects(s, axes, request, |axes|) && OrderIs(s, axes, Logical, |axes|)
  }

  ghost predicate MaskFails(source: PixelSource, axes: seq<Axis>, request: ReadRequest) {
    exists s: PixelSelection :: IsSelection(s, axes, request) && source.readMask(s).None?
  }

  ghost predicate PixelsFail(source: PixelSource, axes: seq<Axis>, request: ReadRequest) {
    exists s: PixelSelection :: IsSelection(s, axes, request) && source.readPixels(s).None?
  }

  // What stopped a piece.
  ghost predicate Stops(failure: ReadFailure, piece: Piece, axes: seq<Axis>, options: ReadOptions, source: PixelSource)
  {
    match failure
    case MaskOverBudget(from, n) =>
      from == piece.firstElement && n == Size(piece) && options.applyMask && 0 < options.readBudgetBytes < n
    case MaskUnread(from) =>
      from == piece.firstElement && options.applyMask && MaskFails(source, axes, piece.request)
    case PixelsUnread(from, n) =>
      from == piece.firstElement && n == Size(piece) && PixelsFail(source, axes, piece.request)
    case _ => false
  }

  ghost predicate SomeStops(failure: ReadFailure, pieces: seq<Piece>, axes: seq<Axis>, options: ReadOptions,
                            source: PixelSource) {
    exists i :: 0 <= i < |pieces| && Stops(failure, pieces[i], axes, options, source)
  }

  // What a read leaves behind, however it ended, and what stopped it.
  ghost predicate Ended(r: ReadResult, now: seq<Double>, was: seq<Double>, axes: seq<Axis>, request: ReadRequest,
                        stored: StoredImage, options: ReadOptions, source: PixelSource, reported: seq<nat>,
                        pieces: seq<Piece>)
  {
    var mask := options.applyMask;
    match r
    case Read(n) =>
      |request| == |axes| && n == Product(Counts(request)) && Left(now, was, axes, request, stored, mask, n, n)
    case Failed(MaskUnread(from)) =>
      && SomeStops(r.failure, pieces, axes, options, source)
      && |request| == |axes| && Left(now, was, axes, request, stored, mask, from, from)
    case Failed(MaskOverBudget(from, n)) =>
      && SomeStops(r.failure, pieces, axes, options, source)
      && |request| == |axes| && Left(now, was, axes, request, stored, mask, from, from)
    case Failed(PixelsUnread(from, n)) =>
      && SomeStops(r.failure, pieces, axes, options, source)
      && |request| == |axes| && Left(now, was, axes, request, stored, mask, from, from + n)
    case Failed(StoppedByProgress) =>
      && reported != []
      && |request| == |axes|
      && Left(now, was, axes, request, stored, mask, reported[|reported| - 1], reported[|reported| - 1])
    case Failed(failure) => now == was && TurnedAway(failure, axes, request, |was|, options.allowed)
  }

  // Each report is of the pieces finished by then, which the destination showed at that moment, and no more.
  ghost predicate Reports(reported: seq<nat>, moments: seq<seq<Double>>, was: seq<Double>, axes: seq<Axis>,
                          request: ReadRequest, stored: StoredImage, applyMask: bool, pieces: seq<Piece>)
  {
    && |reported| == |moments| <= |pieces|
    && forall i :: 0 <= i < |reported| ==>
         && |request| == |axes| && reported[i] == First(pieces, i + 1)
         && Left(moments[i], was, axes, request, stored, applyMask, reported[i], reported[i])
  }

  lemma NothingYet(was: seq<Double>, axes: seq<Axis>, request: ReadRequest, stored: StoredImage, applyMask: bool,
                   pieces: seq<Piece>)
    requires |request| == |axes| && Tiles(axes, request, pieces)
    ensures Left(was, was, axes, request, stored, applyMask, First(pieces, 0), First(pieces, 0))
    ensures Reports([], [], was, axes, request, stored, applyMask, pieces)
  {}

  lemma TilesMean(axes: seq<Axis>, request: ReadRequest, pieces: seq<Piece>, i: nat)
    requires |request| == |axes| && Tiles(axes, request, pieces) && i < |pieces|
    ensures Part(axes, request, pieces[i]) && Serves(axes, pieces[i].request)
    ensures Size(pieces[i]) <= Product(Counts(request))
    ensures pieces[i].firstElement == First(pieces, i)
    ensures First(pieces, i + 1) == pieces[i].firstElement + Size(pieces[i]) <= First(pieces, |pieces|)
         == Product(Counts(request))
  {
    FirstsAscend(axes, request, pieces, i + 1, |pieces|);
  }

  lemma {:induction false} FirstsAscend(axes: seq<Axis>, request: ReadRequest, pieces: seq<Piece>, i: nat, j: nat)
    requires |request| == |axes| && Tiles(axes, request, pieces) && i <= j <= |pieces|
    ensures First(pieces, i) <= First(pieces, j)
    decreases j
  {
    hide Product, Part, Size;
    if i < j { FirstsAscend(axes, request, pieces, i, j - 1); }
  }

  lemma LeftAfter(axes: seq<Axis>, request: ReadRequest, stored: StoredImage, applyMask: bool, piece: Piece,
                  was: seq<Double>, before: seq<Double>, pixels: seq<Double>, after: seq<Double>)
    requires |request| == |axes| && Part(axes, request, piece) && |pixels| == Size(piece)
    requires Left(before, was, axes, request, stored, applyMask, piece.firstElement, piece.firstElement)
    requires |piece.request| == |axes| && Shows(pixels, axes, piece.request, stored, applyMask, |pixels|)
    requires Replaced(before, after, piece.firstElement, pixels)
    ensures Left(after, was, axes, request, stored, applyMask, piece.firstElement + Size(piece),
                 piece.firstElement + Size(piece))
  {
    OneMorePiece(axes, request, stored, applyMask, piece, before, pixels, after);
    hide Shows, Part, Size;
  }

  // A failed read may have written any of its piece's elements, and no others.
  lemma LeftPartway(axes: seq<Axis>, request: ReadRequest, stored: StoredImage, applyMask: bool, from: nat,
                    was: seq<Double>, before: seq<Double>, pixels: seq<Double>, after: seq<Double>)
    requires |request| == |axes| && Left(before, was, axes, request, stored, applyMask, from, from)
    requires Replaced(before, after, from, pixels)
    ensures Left(after, was, axes, request, stored, applyMask, from, from + |pixels|)
  {
    forall k | Inside(Counts(request), k) && PlaceIn(Counts(request), k) < from
      ensures ShowsAt(after, axes, request, stored, applyMask, k)
    {
      assert ShowsAt(before, axes, request, stored, applyMask, k);
    }
  }

  ghost predicate Replaced(before: seq<Double>, after: seq<Double>, from: nat, pixels: seq<Double>) {
    && |after| == |before| && from + |pixels| <= |before|
    && forall p :: 0 <= p < |before| ==>
         after[p] == if from <= p < from + |pixels| then pixels[p - from] else before[p]
  }

  method Place(destination: array<Double>, from: nat, pixels: seq<Double>)
    requires from + |pixels| <= destination.Length
    modifies destination
    ensures Replaced(old(destination[..]), destination[..], from, pixels)
  {
    forall p | 0 <= p < |pixels| {
      destination[from + p] := pixels[p];
    }
  }

  lemma OneMoreReport(reported: seq<nat>, moments: seq<seq<Double>>, was: seq<Double>, axes: seq<Axis>,
                      request: ReadRequest, stored: StoredImage, applyMask: bool, pieces: seq<Piece>,
                      finished: nat, now: seq<Double>)
    requires |request| == |axes| && |reported| < |pieces|
    requires Reports(reported, moments, was, axes, request, stored, applyMask, pieces)
    requires finished == First(pieces, |reported| + 1)
    requires Left(now, was, axes, request, stored, applyMask, finished, finished)
    ensures Reports(reported + [finished], moments + [now], was, axes, request, stored, applyMask, pieces)
  {
    hide Left, First;
  }

  // ---- Checking ----

  ghost predicate Accepted(axes: seq<Axis>, request: ReadRequest) {
    Serves(axes, request) && Product(Counts(request)) <= MAX_UINT64
  }

  // Why a read is turned away before it touches anything.
  ghost predicate TurnedAway(failure: ReadFailure, axes: seq<Axis>, request: ReadRequest, room: nat, allowed: bool) {
    match failure
    case Refused(_) => !Accepted(axes, request)
    case BufferTooSmall => Accepted(axes, request) && Product(Counts(request)) > room
    case NotAllowed => Accepted(axes, request) && Product(Counts(request)) <= room && !allowed
    case _ => false
  }

  method CheckRead(axes: seq<Axis>, request: ReadRequest, room: nat, allowed: bool)
    returns (failure: Option<ReadFailure>, elements: nat)
    requires StoredApart(axes)
    ensures failure.None? <==> Accepted(axes, request) && Product(Counts(request)) <= room && allowed
    ensures failure.None? ==> elements == Product(Counts(request))
    ensures failure.Some? ==> TurnedAway(failure.value, axes, request, room, allowed)
  {
    hide Product, Counts, Serves, StoredApart, Selects, OrderIs;
    failure, elements := None, 0;
    var selection := BuildSelection(axes, request, Logical);
    if selection.Err? {
      failure := Some(Refused(selection.error));
      return;
    }
    HowMany(axes, request, selection.value);
    elements := selection.value.elements;
    if elements > room {
      failure := Some(BufferTooSmall);
    } else if !allowed {
      failure := Some(NotAllowed);
    }
  }

  // ---- One piece ----

  // What stopped a piece, and what it left.
  ghost predicate PieceFailed(failure: ReadFailure, now: seq<Double>, was: seq<Double>, axes: seq<Axis>,
                              request: ReadRequest, stored: StoredImage, options: ReadOptions, source: PixelSource,
                              piece: Piece)
    requires |request| == |axes|
  {
    var from := piece.firstElement;
    && Stops(failure, piece, axes, options, source)
    && Left(now, was, axes, request, stored, options.applyMask, from,
            if failure.PixelsUnread? then from + Size(piece) else from)
  }

  // The mask is read before the pixels, so one that cannot be read leaves the piece as it was. A failed
  // pixel read may leave anything where it was to write.
  method ReadPiece(axes: seq<Axis>, ghost request: ReadRequest, piece: Piece, destination: array<Double>,
                   options: ReadOptions, source: PixelSource, leaves: PixelSelection -> seq<Double>,
                   ghost was: seq<Double>, ghost stored: StoredImage)
    returns (failure: Option<ReadFailure>, finished: nat)
    requires StoredApart(axes) && ServesImage(source, stored) && forall s: PixelSelection :: |leaves(s)| == s.elements
    requires |request| == |axes| && Part(axes, request, piece)
    requires Size(piece) <= MAX_UINT64 && piece.firstElement + Size(piece) <= destination.Length
    requires Left(destination[..], was, axes, request, stored, options.applyMask, piece.firstElement,
                  piece.firstElement)
    modifies destination
    ensures finished == piece.firstElement + Size(piece)
    ensures failure.None? ==> Left(destination[..], was, axes, request, stored, options.applyMask, finished, finished)
    ensures failure.Some? ==>
              PieceFailed(failure.value, destination[..], was, axes, request, stored, options, source, piece)
  {
    hide *;
    failure := None;
    PartMeans(axes, request, piece);
    var selection := BuildSelection(axes, piece.request, Logical);
    var s := selection.value;
    HowMany(axes, piece.request, s);
    ItIsSelection(s, axes, piece.request);
    finished := piece.firstElement + s.elements;
    var mask: seq<Byte> := [];
    if options.applyMask {
      if options.readBudgetBytes != 0 && s.elements > options.readBudgetBytes {
        failure := Some(MaskOverBudget(piece.firstElement, s.elements));
        ItFailed(failure.value, destination[..], was, axes, request, stored, options, source, piece, s);
        return;
      }
      var maskRead := source.readMask(s);
      if maskRead.None? {
        failure := Some(MaskUnread(piece.firstElement));
        ItFailed(failure.value, destination[..], was, axes, request, stored, options, source, piece, s);
        return;
      }
      mask := maskRead.value;
    }
    var strides := DestinationStrides(s);
    ReadIsFilled(source, stored, s, strides);
    ghost var before := destination[..];
    var read := source.readPixels(s);
    if read.None? {
      Place(destination, piece.firstElement, leaves(s));
      LeftPartway(axes, request, stored, options.applyMask, piece.firstElement, was, before, leaves(s),
                  destination[..]);
      failure := Some(PixelsUnread(piece.firstElement, s.elements));
      ItFailed(failure.value, destination[..], was, axes, request, stored, options, source, piece, s);
      return;
    }
    var pixels := read.value;
    if options.applyMask {
      pixels := ApplyPixelMask(pixels, mask);
    }
    ItIsFolded(options.applyMask, source, s, pixels);
    ReadShows(axes, piece.request, source, stored, s, strides, options.applyMask, pixels);
    Place(destination, piece.firstElement, pixels);
    LeftAfter(axes, request, stored, options.applyMask, piece, was, before, pixels, destination[..]);
  }

  lemma PartMeans(axes: seq<Axis>, request: ReadRequest, piece: Piece)
    requires |request| == |axes| && Part(axes, request, piece)
    ensures Serves(axes, piece.request) && Size(piece) == Product(Counts(piece.request)) && |piece.request| == |axes|
  {}

  lemma ItFailed(failure: ReadFailure, now: seq<Double>, was: seq<Double>, axes: seq<Axis>, request: ReadRequest,
                 stored: StoredImage, options: ReadOptions, source: PixelSource, piece: Piece, s: PixelSelection)
    requires |request| == |axes| && s.elements == Size(piece) && IsSelection(s, axes, piece.request)
    requires match failure
      case MaskOverBudget(at, n) =>
        && at == piece.firstElement && n == Size(piece) && options.applyMask && 0 < options.readBudgetBytes < n
        && Left(now, was, axes, request, stored, options.applyMask, at, at)
      case MaskUnread(at) =>
        && at == piece.firstElement && options.applyMask && source.readMask(s).None?
        && Left(now, was, axes, request, stored, options.applyMask, at, at)
      case PixelsUnread(at, n) =>
        && at == piece.firstElement && n == Size(piece) && source.readPixels(s).None?
        && Left(now, was, axes, request, stored, options.applyMask, at, at + n)
      case _ => false
    ensures PieceFailed(failure, now, was, axes, request, stored, options, source, piece)
  {
    hide Left, Size, IsSelection;
  }

  lemma ItIsSelection(s: PixelSelection, axes: seq<Axis>, request: ReadRequest)
    requires |request| == |axes| && s.Valid() && Selects(s, axes, request, |axes|) && OrderIs(s, axes, Logical, |axes|)
    ensures IsSelection(s, axes, request)
  {}

  // ---- The whole read ----

  lemma ReadyToPlan(axes: seq<Axis>, request: ReadRequest)
    requires Serves(axes, request)
    ensures |request| == |axes| && forall i :: 0 <= i < |request| ==> request[i].count > 0 && request[i].stride > 0
  {
    forall i | 0 <= i < |request| ensures request[i].count > 0 && request[i].stride > 0 {
      assert ServesAxis(axes, request, i);
    }
  }

  lemma EndedBefore(failure: ReadFailure, now: seq<Double>, was: seq<Double>, axes: seq<Axis>, request: ReadRequest,
                    stored: StoredImage, options: ReadOptions, source: PixelSource, reported: seq<nat>,
                    pieces: seq<Piece>)
    requires TurnedAway(failure, axes, request, |was|, options.allowed) && now == was
    ensures Ended(Failed(failure), now, was, axes, request, stored, options, source, reported, pieces)
  {}

  lemma EndedAtPiece(failure: ReadFailure, now: seq<Double>, was: seq<Double>, axes: seq<Axis>, request: ReadRequest,
                     stored: StoredImage, options: ReadOptions, source: PixelSource, reported: seq<nat>,
                     pieces: seq<Piece>, i: nat)
    requires |request| == |axes| && i < |pieces|
    requires PieceFailed(failure, now, was, axes, request, stored, options, source, pieces[i])
    ensures Ended(Failed(failure), now, was, axes, request, stored, options, source, reported, pieces)
  {
    hide Left, Size, MaskFails, PixelsFail;
  }

  lemma EndedByProgress(now: seq<Double>, was: seq<Double>, axes: seq<Axis>, request: ReadRequest, stored: StoredImage,
                        options: ReadOptions, source: PixelSource, reported: seq<nat>, finished: nat,
                        pieces: seq<Piece>)
    requires |request| == |axes| && reported != [] && reported[|reported| - 1] == finished
    requires Left(now, was, axes, request, stored, options.applyMask, finished, finished)
    ensures Ended(Failed(StoppedByProgress), now, was, axes, request, stored, options, source, reported, pieces)
  {
    hide Left;
  }

  lemma EndedWell(now: seq<Double>, was: seq<Double>, axes: seq<Axis>, request: ReadRequest, stored: StoredImage,
                  options: ReadOptions, source: PixelSource, reported: seq<nat>, elements: nat,
                  pieces: seq<Piece>)
    requires |request| == |axes| && elements == Product(Counts(request))
    requires Left(now, was, axes, request, stored, options.applyMask, elements, elements)
    ensures Ended(Read(elements), now, was, axes, request, stored, options, source, reported, pieces)
  {
    hide Left, Product;
  }

  lemma NoReports(was: seq<Double>, axes: seq<Axis>, request: ReadRequest, stored: StoredImage, applyMask: bool)
    ensures Reports([], [], was, axes, request, stored, applyMask, [])
  {}

  // On success the destination is, element for element, what one unsplit masked read would have left;
  // otherwise it is what the failure says. Nothing past the request is ever written.
  method ReadInPieces(axes: seq<Axis>, request: ReadRequest, destination: array<Double>, options: ReadOptions,
                      source: PixelSource, leaves: PixelSelection -> seq<Double>,
                      progress: Option<(nat, nat) -> bool>, ghost stored: StoredImage)
    returns (r: ReadResult, reported: seq<nat>, ghost moments: seq<seq<Double>>, ghost pieces: seq<Piece>,
             ghost axis: Option<nat>, ghost cuts: seq<nat>)
    requires StoredApart(axes) && ServesImage(source, stored)
    requires forall s: PixelSelection :: |leaves(s)| == s.elements
    modifies destination
    ensures Ended(r, destination[..], old(destination[..]), axes, request, stored, options, source, reported, pieces)
    ensures r.Failed? && TurnedAway(r.failure, axes, request, destination.Length, options.allowed)
       <==> !(Accepted(axes, request) && Product(Counts(request)) <= destination.Length && options.allowed)
    ensures Reports(reported, moments, old(destination[..]), axes, request, stored, options.applyMask, pieces)
    ensures reported != [] || pieces != [] ==>
              && |request| == |axes| && Tiles(axes, request, pieces)
              && Planned(pieces, request, options.chunkShape, axis, cuts)
              && Spends(pieces, request, options.chunkShape, axis, options.chunkBytes, options.budgetBytes)
    ensures progress.None? ==> reported == []
    ensures progress.Some? && r.Read? ==> |reported| == |pieces| > 0 && reported[|reported| - 1] == r.elements
    ensures progress.Some? && r.Read? ==> forall i :: 0 <= i < |reported| ==> progress.value(reported[i], r.elements)
  {
    hide *;
    ghost var was := destination[..];
    reported, moments, pieces, axis, cuts := [], [], [], None, [];
    NoReports(was, axes, request, stored, options.applyMask);
    var refused, elements := CheckRead(axes, request, destination.Length, options.allowed);
    if refused.Some? {
      r := Failed(refused.value);
      EndedBefore(refused.value, was, was, axes, request, stored, options, source, reported, pieces);
      return;
    }
    AcceptedMeans(axes, request);
    ReadyToPlan(axes, request);
    var planned, cutAxis, cutAt := PlanPieces(request, options.chunkShape, options.chunkBytes, options.budgetBytes,
                                              options.readBudgetBytes, progress.Some?);
    pieces, axis, cuts := planned, cutAxis, cutAt;
    PlannedTiles(axes, request, options.chunkShape, pieces, axis, cuts);
    NothingYet(was, axes, request, stored, options.applyMask, pieces);
    for i := 0 to |planned|
      invariant Left(destination[..], was, axes, request, stored, options.applyMask, First(pieces, i), First(pieces, i))
      invariant Reports(reported, moments, was, axes, request, stored, options.applyMask, pieces)
      invariant |reported| == if progress.Some? then i else 0
      invariant progress.Some? ==> forall j :: 0 <= j < i ==> progress.value(reported[j], elements)
      invariant progress.Some? && i > 0 ==> reported[i - 1] == First(pieces, i)
    {
      TilesMean(axes, request, pieces, i);
      var failure, finished := ReadPiece(axes, request, planned[i], destination, options, source, leaves, was, stored);
      if failure.Some? {
        r := Failed(failure.value);
        EndedAtPiece(failure.value, destination[..], was, axes, request, stored, options, source, reported, pieces, i);
        NotTurnedAway(failure.value, destination[..], was, axes, request, stored, options, source, planned[i],
                      destination.Length);
        return;
      }
      if progress.Some? {
        OneMoreReport(reported, moments, was, axes, request, stored, options.applyMask, pieces, finished,
                      destination[..]);
        reported, moments := reported + [finished], moments + [destination[..]];
        if !progress.value(finished, elements) {
          r := Failed(StoppedByProgress);
          EndedByProgress(destination[..], was, axes, request, stored, options, source, reported, finished, pieces);
          StoppedIsNotTurnedAway(axes, request, destination.Length, options.allowed);
          return;
        }
      }
    }
    TilesEnd(axes, request, pieces);
    r := Read(elements);
    EndedWell(destination[..], was, axes, request, stored, options, source, reported, elements, pieces);
  }

  lemma AcceptedMeans(axes: seq<Axis>, request: ReadRequest)
    requires Accepted(axes, request)
    ensures Serves(axes, request) && Product(Counts(request)) <= MAX_UINT64
  {}

  lemma TilesEnd(axes: seq<Axis>, request: ReadRequest, pieces: seq<Piece>)
    requires |request| == |axes| && Tiles(axes, request, pieces)
    ensures |pieces| > 0 && First(pieces, |pieces|) == Product(Counts(request))
  {}

  lemma NotTurnedAway(failure: ReadFailure, now: seq<Double>, was: seq<Double>, axes: seq<Axis>, request: ReadRequest,
                      stored: StoredImage, options: ReadOptions, source: PixelSource, piece: Piece, room: nat)
    requires |request| == |axes|
    requires PieceFailed(failure, now, was, axes, request, stored, options, source, piece)
    ensures !TurnedAway(failure, axes, request, room, options.allowed)
  {}

  lemma StoppedIsNotTurnedAway(axes: seq<Axis>, request: ReadRequest, room: nat, allowed: bool)
    ensures !TurnedAway(StoppedByProgress, axes, request, room, allowed)
  {}
}
