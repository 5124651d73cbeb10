// What a read asks for, and where each element it asks for lands: src/zarr/pixel_selection.cc.

module PixelSelections {
  import opened Wrappers
  import B = ChunkBlocks

  const MAX_UINT64: nat := 0xFFFF_FFFF_FFFF_FFFF

  datatype Axis = Axis(length: nat, storageIndex: nat)
  datatype Range = Range(start: nat, count: nat, stride: nat)
  datatype DestinationOrder = Logical | Stored

  datatype Refusal = WrongRank | ZeroStride | NoElements | ExceedsAxis | BadStorageIndex | TooManyElements

  // Origins, counts and strides by stored dimension, and for each axis of the destination the dimension it
  // shows.
  datatype PixelSelection = PixelSelection(
    start: seq<nat>, count: seq<nat>, stride: seq<nat>, destinationToStored: seq<nat>, elements: nat)
  {
    // What BuildSelection gives: every stored dimension has elements, and is one destination axis.
    ghost predicate Valid() {
      && |start| == |count| == |stride| == |destinationToStored|
      && (forall d :: 0 <= d < |count| ==> count[d] > 0)
      && IsOrder(destinationToStored)
      && elements == Product(count)
    }
  }

  // A permutation of [0, |order|).
  ghost predicate IsOrder(order: seq<nat>) {
    && (forall i :: 0 <= i < |order| ==> order[i] < |order|)
    && (forall i, j :: 0 <= i < j < |order| ==> order[i] != order[j])
  }

  // ---- Products ----

  function Product(s: seq<nat>): nat {
    if s == [] then 1 else Product(s[..|s| - 1]) * s[|s| - 1]
  }

  lemma {:induction false} ProductOfOnes(n: seq<nat>)
    requires forall i :: 0 <= i < |n| ==> n[i] == 1
    ensures Product(n) == 1
  {
    if n != [] { ProductOfOnes(n[..|n| - 1]); }
  }

  ghost function ProductOver(dims: set<nat>, count: seq<nat>): nat
    requires forall d :: d in dims ==> d < |count|
  {
    if dims == {} then 1
    else
      var d :| d in dims;
      count[d] * ProductOver(dims - {d}, count)
  }

  lemma {:induction false} ProductTakesAny(dims: set<nat>, count: seq<nat>, d: nat)
    requires d in dims && forall e :: e in dims ==> e < |count|
    ensures ProductOver(dims, count) == count[d] * ProductOver(dims - {d}, count)
    decreases |dims|
  {
    var e: nat :| e in dims && ProductOver(dims, count) == count[e] * ProductOver(dims - {e}, count);
    if e != d {
      ProductTakesAny(dims - {e}, count, d);
      ProductTakesAny(dims - {d}, count, e);
      assert dims - {e} - {d} == dims - {d} - {e};
      Swap(count[e], count[d], ProductOver(dims - {e} - {d}, count));
    }
  }

  lemma Swap(a: nat, b: nat, rest: nat)
    ensures a * (b * rest) == b * (a * rest)
  {}

  ghost function InOrder(order: seq<nat>, count: seq<nat>): (n: seq<nat>)
    requires forall i :: 0 <= i < |order| ==> order[i] < |count|
    ensures |n| == |order| && forall i :: 0 <= i < |n| ==> n[i] == count[order[i]]
  {
    seq(|order|, i requires 0 <= i < |order| => count[order[i]])
  }

  ghost function Dims(order: seq<nat>): set<nat> {
    set i | 0 <= i < |order| :: order[i]
  }

  lemma {:induction false} ProductInOrder(order: seq<nat>, count: seq<nat>)
    requires forall i :: 0 <= i < |order| ==> order[i] < |count|
    requires forall i, j :: 0 <= i < j < |order| ==> order[i] != order[j]
    ensures Product(InOrder(order, count)) == ProductOver(Dims(order), count)
    decreases |order|
  {
    if order != [] {
      hide ProductOver, Product;
      var l := |order| - 1;
      ProductInOrder(order[..l], count);
      LastInOrder(order, count);
      assert Dims(order) - {order[l]} == Dims(order[..l]);
      ProductTakesAny(Dims(order), count, order[l]);
    }
  }

  lemma LastInOrder(order: seq<nat>, count: seq<nat>)
    requires order != [] && forall i :: 0 <= i < |order| ==> order[i] < |count|
    ensures Product(InOrder(order, count))
         == count[order[|order| - 1]] * Product(InOrder(order[..|order| - 1], count))
  {
    var l := |order| - 1;
    assert InOrder(order, count)[..l] == InOrder(order[..l], count);
  }

  // A permutation of the first n names every one of them.
  lemma {:induction false} OrderIsOnto(order: seq<nat>, n: nat)
    requires |order| == n && IsOrder(order)
    ensures forall d: nat :: d < n ==> d in Dims(order)
  {
    var all := Upto(n);
    CardinalityOf(order);
    if d: nat :| d < n && d !in Dims(order) {
      assert Dims(order) <= all - {d};
      SubsetCounts(Dims(order), all - {d});
      assert false;
    }
  }

  lemma {:induction false} CardinalityOf(order: seq<nat>)
    requires forall i, j :: 0 <= i < j < |order| ==> order[i] != order[j]
    ensures |Dims(order)| == |order|
    decreases |order|
  {
    if order != [] {
      var l := |order| - 1;
      CardinalityOf(order[..l]);
      assert Dims(order) == Dims(order[..l]) + {order[l]};
    }
  }

  // Counting the elements dimension by dimension or axis by axis comes to the same.
  lemma ProductOfOrder(order: seq<nat>, count: seq<nat>)
    requires |order| == |count| && IsOrder(order)
    ensures Product(InOrder(order, count)) == Product(count)
  {
    hide Product, ProductOver;
    var plain: seq<nat> := seq(|count|, i requires 0 <= i < |count| => i);
    ProductInOrder(order, count);
    ProductInOrder(plain, count);
    assert InOrder(plain, count) == count;
    DimsAreAll(order);
    DimsAreAll(plain);
  }

  lemma DimsAreAll(order: seq<nat>)
    requires IsOrder(order)
    ensures Dims(order) == Upto(|order|)
  {
    OrderIsOnto(order, |order|);
  }

  // ---- Building a selection ----

  // The last selected index falls inside the axis.
  ghost predicate Fits(range: Range, axis: Axis) {
    range.stride > 0 && range.count > 0 && range.start + (range.count - 1) * range.stride < axis.length
  }

  lemma FitsByDividing(range: Range, axis: Axis)
    requires range.stride > 0 && range.count > 0
    ensures range.start >= axis.length || range.count - 1 > (axis.length - 1 - range.start) / range.stride
       <==> !Fits(range, axis)
  {
    if range.start < axis.length {
      var room := axis.length - 1 - range.start;
      Divides(range.count - 1, room, range.stride);
    }
  }

  lemma Divides(k: nat, room: nat, stride: nat)
    requires stride > 0
    ensures k <= room / stride <==> k * stride <= room
  {
    var q := room / stride;
    assert q * stride <= room < (q + 1) * stride;
    if k <= q { assert k * stride <= q * stride; } else { assert k * stride >= (q + 1) * stride; }
  }

  // With a single element the stride is immaterial, and is one.
  function StrideOf(range: Range): nat {
    if range.count == 1 then 1 else range.stride
  }

  // No two axes are stored as one dimension.
  ghost predicate StoredApart(axes: seq<Axis>) {
    forall i, j :: 0 <= i < j < |axes| ==> axes[i].storageIndex != axes[j].storageIndex
  }

  // The selection says of each stored dimension what the request says of the axis stored there.
  ghost predicate Selects(s: PixelSelection, axes: seq<Axis>, request: seq<Range>, n: nat) {
    && n <= |axes| == |request|
    && |s.start| == |s.count| == |s.stride| == |s.destinationToStored| == |axes|
    && forall i :: 0 <= i < n ==> SelectsAxis(s, axes[i].storageIndex, request[i])
  }

  ghost predicate SelectsAxis(s: PixelSelection, d: nat, range: Range) {
    && d < |s.start| == |s.count| == |s.stride|
    && s.start[d] == range.start && s.count[d] == range.count && s.stride[d] == StrideOf(range)
  }

  ghost predicate Serves(axes: seq<Axis>, request: seq<Range>) {
    |request| == |axes| && forall i :: 0 <= i < |axes| ==> ServesAxis(axes, request, i)
  }

  ghost predicate ServesAxis(axes: seq<Axis>, request: seq<Range>, i: nat)
    requires i < |axes| == |request|
  {
    Fits(request[i], axes[i]) && axes[i].storageIndex < |axes|
  }

  ghost predicate OrderIs(s: PixelSelection, axes: seq<Axis>, order: DestinationOrder, n: nat) {
    && n <= |s.destinationToStored| == |axes|
    && forall i :: 0 <= i < n ==>
         s.destinationToStored[i] == if order.Stored? then |axes| - 1 - i else axes[i].storageIndex
  }

  function Counts(request: seq<Range>): seq<nat> {
    seq(|request|, i requires 0 <= i < |request| => request[i].count)
  }

  // One axis: its stored dimension, unless the range or the metadata is refused.
  method CheckAxis(axes: seq<Axis>, request: seq<Range>, logical: nat) returns (r: Result<nat, Refusal>)
    requires logical < |axes| == |request|
    ensures r.Ok? <==> ServesAxis(axes, request, logical)
    ensures r.Ok? ==> r.value == axes[logical].storageIndex
    ensures r != Err(WrongRank)
  {
    var axis, range := axes[logical], request[logical];
    if range.stride == 0 {
      return Err(ZeroStride);
    }
    if range.count == 0 {
      return Err(NoElements);
    }
    FitsByDividing(range, axis);
    if range.start >= axis.length || range.count - 1 > (axis.length - 1 - range.start) / range.stride {
      return Err(ExceedsAxis);
    }
    if axis.storageIndex >= |axes| {
      return Err(BadStorageIndex);
    }
    r := Ok(axis.storageIndex);
  }

  method BuildSelection(axes: seq<Axis>, request: seq<Range>, order: DestinationOrder)
      returns (r: Result<PixelSelection, Refusal>)
    requires StoredApart(axes)
    ensures r.Ok? <==> Serves(axes, request) && Product(Counts(request)) <= MAX_UINT64
    ensures r.Ok? ==> r.value.Valid() && Selects(r.value, axes, request, |axes|)
    ensures r.Ok? ==> OrderIs(r.value, axes, order, |axes|)
    ensures r == Err(WrongRank) <==> |request| != |axes|
  {
    hide Selects, OrderIs, Product, ServesAxis, StoredApart, Counts, PixelSelection.Valid, SelectsAxis;
    var rank := |axes|;
    if |request| != rank {
      return Err(WrongRank);
    }
    var s := PixelSelection(seq(rank, _ => 0), seq(rank, _ => 0), seq(rank, _ => 1), seq(rank, _ => 0), 0);
    NoneSelected(s, axes, request);
    for logical := 0 to rank
      invariant Selects(s, axes, request, logical) && OrderIs(s, axes, Logical, logical)
      invariant forall i :: 0 <= i < logical ==> ServesAxis(axes, request, i)
    {
      var checked := CheckAxis(axes, request, logical);
      if checked.Err? {
        return Err(checked.error);
      }
      s := SelectAxis(s, axes, request, logical);
    }
    ghost var before := s;
    SelectsRank(s, axes, request);
    if order.Stored? {
      s := s.(destinationToStored := seq(rank, axis requires 0 <= axis < rank => rank - 1 - axis));
    }
    Reordered(before, s, axes, request, order);
    EveryDimensionSelected(s, axes, request, order);
    r := Count(s);
    if r.Ok? { Elements(s, r.value, axes, request, order); }
  }

  lemma SelectsRank(s: PixelSelection, axes: seq<Axis>, request: seq<Range>)
    requires Selects(s, axes, request, |axes|)
    ensures |s.destinationToStored| == |axes|
  {}

  lemma NoneSelected(s: PixelSelection, axes: seq<Axis>, request: seq<Range>)
    requires |request| == |axes| == |s.start| == |s.count| == |s.stride| == |s.destinationToStored|
    ensures Selects(s, axes, request, 0) && OrderIs(s, axes, Logical, 0)
  {}

  function SelectAxis(s: PixelSelection, axes: seq<Axis>, request: seq<Range>, logical: nat): (t: PixelSelection)
    requires logical < |axes| == |request| && ServesAxis(axes, request, logical) && StoredApart(axes)
    requires Selects(s, axes, request, logical) && OrderIs(s, axes, Logical, logical)
    ensures Selects(t, axes, request, logical + 1) && OrderIs(t, axes, Logical, logical + 1)
  {
    var stored, range := axes[logical].storageIndex, request[logical];
    s.(start := s.start[stored := range.start], count := s.count[stored := range.count],
       stride := s.stride[stored := StrideOf(range)],
       destinationToStored := s.destinationToStored[logical := stored])
  }

  // How the destination is laid out changes nothing of what is selected.
  lemma Reordered(before: PixelSelection, s: PixelSelection, axes: seq<Axis>, request: seq<Range>,
                  order: DestinationOrder)
    requires Selects(before, axes, request, |axes|) && OrderIs(before, axes, Logical, |axes|)
    requires s == before.(destinationToStored := s.destinationToStored) && |s.destinationToStored| == |axes|
    requires forall i :: 0 <= i < |axes| ==>
               s.destinationToStored[i] == if order.Stored? then |axes| - 1 - i else before.destinationToStored[i]
    ensures Selects(s, axes, request, |axes|) && OrderIs(s, axes, order, |axes|)
  {
    forall i | 0 <= i < |axes| ensures SelectsAxis(s, axes[i].storageIndex, request[i]) {
      assert SelectsAxis(before, axes[i].storageIndex, request[i]);
    }
  }

  // How many elements it selects, unless they cannot be counted.
  method Count(s: PixelSelection) returns (r: Result<PixelSelection, Refusal>)
    requires forall d :: 0 <= d < |s.count| ==> s.count[d] > 0
    ensures r == if Product(s.count) <= MAX_UINT64 then Ok(s.(elements := Product(s.count))) else Err(TooManyElements)
  {
    var elements := 1;
    for d := 0 to |s.count|
      invariant elements == Product(s.count[..d])
      invariant 1 <= elements <= MAX_UINT64
    {
      assert s.count[..d + 1][..d] == s.count[..d];
      Counted(elements, s.count[d]);
      hide Product;
      ProductGrows(s.count, d + 1);
      ProductStep(s.count, d);
      if elements > MAX_UINT64 / s.count[d] {
        return Err(TooManyElements);
      }
      elements := elements * s.count[d];
    }
    assert s.count[..|s.count|] == s.count;
    r := Ok(s.(elements := elements));
  }

  lemma ProductStep(count: seq<nat>, d: nat)
    requires d < |count|
    ensures Product(count[..d + 1]) == Product(count[..d]) * count[d]
  {
    assert count[..d + 1][..d] == count[..d];
  }

  lemma Counted(elements: nat, count: nat)
    requires count > 0 && elements > 0
    ensures elements > MAX_UINT64 / count <==> elements * count > MAX_UINT64
    ensures elements * count >= 1
  {
    Divides(elements, MAX_UINT64, count);
  }

  lemma {:induction false} ProductGrows(count: seq<nat>, n: nat)
    requires n <= |count| && forall d :: 0 <= d < |count| ==> count[d] > 0
    ensures Product(count[..n]) <= Product(count)
    decreases |count| - n
  {
    hide Product;
    if n < |count| {
      ProductGrows(count, n + 1);
      ProductStep(count, n);
      AtLeastOnce(Product(count[..n]), count[n]);
    } else {
      assert count[..n] == count;
    }
  }

  lemma AtLeastOnce(a: nat, b: nat)
    requires b > 0
    ensures a <= a * b
  {}

  lemma EveryDimensionSelected(s: PixelSelection, axes: seq<Axis>, request: seq<Range>, order: DestinationOrder)
    requires StoredApart(axes) && Serves(axes, request) && Selects(s, axes, request, |axes|)
    requires OrderIs(s, axes, order, |axes|)
    ensures Product(s.count) == Product(Counts(request))
    ensures forall d :: 0 <= d < |s.count| ==> s.count[d] > 0
    ensures IsOrder(s.destinationToStored) && |s.start| == |s.count| == |s.stride| == |s.destinationToStored|
  {
    var stored: seq<nat> := seq(|axes|, i requires 0 <= i < |axes| => axes[i].storageIndex);
    forall i | 0 <= i < |axes| ensures stored[i] < |axes| && s.count[stored[i]] == request[i].count > 0 {
      assert ServesAxis(axes, request, i) && SelectsAxis(s, axes[i].storageIndex, request[i]);
    }
    assert IsOrder(stored);
    OrderIsOnto(stored, |axes|);
    ProductOfOrder(stored, s.count);
    assert InOrder(stored, s.count) == Counts(request);
    forall d: nat | d < |axes| ensures s.count[d] > 0 {
      assert d in Dims(stored);
    }
  }

  lemma Elements(s: PixelSelection, t: PixelSelection, axes: seq<Axis>, request: seq<Range>, order: DestinationOrder)
    requires Selects(s, axes, request, |axes|) && OrderIs(s, axes, order, |axes|)
    requires t == s.(elements := Product(s.count))
    requires forall d :: 0 <= d < |s.count| ==> s.count[d] > 0
    requires IsOrder(s.destinationToStored) && |s.start| == |s.count| == |s.stride| == |s.destinationToStored|
    ensures t.Valid() && Selects(t, axes, request, |axes|) && OrderIs(t, axes, order, |axes|)
  {
    forall i | 0 <= i < |axes| ensures SelectsAxis(t, axes[i].storageIndex, request[i]) {
      assert SelectsAxis(s, axes[i].storageIndex, request[i]);
    }
  }

  // ---- Where an element lands ----

  // For each stored dimension, the distance in the destination between neighbours along it.
  method DestinationStrides(s: PixelSelection) returns (strides: seq<nat>)
    requires s.Valid()
    ensures StridesOf(s, strides)
  {
    hide *;
    var n := Means(s);
    strides := seq(|s.count|, _ => 1);
    var running: nat := 1;
    ProductOfNone(n);
    for i := 0 to |s.destinationToStored|
      invariant |strides| == |s.count| && running == Product(n[..i])
      invariant forall j :: 0 <= j < i ==> strides[s.destinationToStored[j]] == Product(n[..j])
    {
      ProductStep(n, i);
      strides := strides[s.destinationToStored[i] := running];
      running := running * s.count[s.destinationToStored[i]];
    }
    TheyAreStrides(s, strides);
  }

  lemma Means(s: PixelSelection) returns (n: seq<nat>)
    requires s.Valid()
    ensures |s.start| == |s.count| == |s.stride| == |s.destinationToStored| == |n|
    ensures forall i :: 0 <= i < |n| ==>
              s.destinationToStored[i] < |s.count| && n[i] == s.count[s.destinationToStored[i]]
    ensures forall i, j :: 0 <= i < j < |n| ==> s.destinationToStored[i] != s.destinationToStored[j]
    ensures n == InOrder(s.destinationToStored, s.count)
  {
    n := InOrder(s.destinationToStored, s.count);
  }

  lemma ProductOfNone(n: seq<nat>)
    ensures Product(n[..0]) == 1
  {}

  lemma TheyAreStrides(s: PixelSelection, strides: seq<nat>)
    requires s.Valid() && |strides| == |s.count|
    requires forall i :: 0 <= i < |s.count| ==> s.destinationToStored[i] < |s.count|
    requires forall j :: 0 <= j < |s.count| ==>
               strides[s.destinationToStored[j]] == Product(InOrder(s.destinationToStored, s.count)[..j])
    ensures StridesOf(s, strides)
  {}

  // The destination has no gaps: along axis i, neighbours are as far apart as the axes before i have elements
  // together.
  ghost predicate StridesOf(s: PixelSelection, strides: seq<nat>)
    requires s.Valid()
  {
    && |strides| == |s.count|
    && forall j :: 0 <= j < |s.count| ==>
         strides[s.destinationToStored[j]] == Product(InOrder(s.destinationToStored, s.count)[..j])
  }

  // ---- Places and elements are one to one ----

  // Coordinates along axes of n elements each, and where they come in a dense array whose axis 0 is
  // fastest.
  ghost predicate Inside(n: seq<nat>, c: seq<nat>) {
    |c| == |n| && forall i :: 0 <= i < |n| ==> c[i] < n[i]
  }

  ghost function PlaceIn(n: seq<nat>, c: seq<nat>): nat
    requires |c| == |n|
  {
    if n == [] then 0 else PlaceIn(n[..|n| - 1], c[..|n| - 1]) + c[|n| - 1] * Product(n[..|n| - 1])
  }

  lemma Digits(low: nat, digit: nat, base: nat, digits: nat)
    requires low < base && digit < digits
    ensures low + digit * base < base * digits
  {
    assert (digit + 1) * base <= digits * base;
  }

  lemma SameDigits(a: nat, x: nat, b: nat, y: nat, base: nat)
    requires a < base && b < base && a + x * base == b + y * base
    ensures a == b && x == y
  {
    B.DivMod(x, a, base);
    B.DivMod(y, b, base);
  }

  lemma {:induction false} PlaceBelow(n: seq<nat>, c: seq<nat>)
    requires Inside(n, c)
    ensures PlaceIn(n, c) < Product(n)
    decreases |n|
  {
    if n != [] {
      var l := |n| - 1;
      PlaceBelow(n[..l], c[..l]);
      Digits(PlaceIn(n[..l], c[..l]), c[l], Product(n[..l]), n[l]);
    }
  }

  lemma {:induction false} OnePlaceEach(n: seq<nat>, c: seq<nat>, d: seq<nat>)
    requires Inside(n, c) && Inside(n, d) && PlaceIn(n, c) == PlaceIn(n, d)
    ensures c == d
    decreases |n|
  {
    if n != [] {
      var l := |n| - 1;
      PlaceBelow(n[..l], c[..l]);
      PlaceBelow(n[..l], d[..l]);
      SameDigits(PlaceIn(n[..l], c[..l]), c[l], PlaceIn(n[..l], d[..l]), d[l], Product(n[..l]));
      OnePlaceEach(n[..l], c[..l], d[..l]);
      assert c == c[..l] + [c[l]] && d == d[..l] + [d[l]];
    }
  }

  lemma DivideDown(p: nat, base: nat, digits: nat) returns (low: nat, digit: nat)
    requires p < base * digits
    ensures low < base && digit < digits && p == low + digit * base
  {
    if base > 0 {
      low, digit := p % base, p / base;
      B.AtOrPast(digits, p, base);
    }
  }

  lemma {:induction false} APlaceFor(n: seq<nat>, p: nat) returns (c: seq<nat>)
    requires p < Product(n)
    ensures Inside(n, c) && PlaceIn(n, c) == p
    decreases |n|
  {
    if n == [] {
      c := [];
    } else {
      var l := |n| - 1;
      var low, digit := DivideDown(p, Product(n[..l]), n[l]);
      var rest := APlaceFor(n[..l], low);
      c := rest + [digit];
      assert c[..l] == rest;
    }
  }

  // Where the element with stored coordinates k lands: a step along each of the destination's axes
  // for each of its coordinates.
  ghost function Landing(s: PixelSelection, strides: seq<nat>, k: seq<nat>, axes: nat): nat
    requires s.Valid() && |strides| == |s.count| == |k| && axes <= |k|
  {
    if axes == 0 then 0
    else
      var d := s.destinationToStored[axes - 1];
      Landing(s, strides, k, axes - 1) + k[d] * strides[d]
  }

  ghost function PlaceOf(s: PixelSelection, strides: seq<nat>, k: seq<nat>): nat
    requires s.Valid() && |strides| == |s.count| == |k|
  {
    Landing(s, strides, k, |k|)
  }

  lemma {:induction false} LandingIs(s: PixelSelection, strides: seq<nat>, k: seq<nat>, axes: nat)
    requires s.Valid() && StridesOf(s, strides) && |k| == |s.count| && axes <= |k|
    ensures Landing(s, strides, k, axes)
         == PlaceIn(InOrder(s.destinationToStored, s.count)[..axes], InOrder(s.destinationToStored, k)[..axes])
  {
    hide Product, PlaceIn, Landing;
    var n, c := InOrder(s.destinationToStored, s.count), InOrder(s.destinationToStored, k);
    if axes > 0 {
      LandingIs(s, strides, k, axes - 1);
      LandingStep(s, strides, k, axes);
      PlaceStep(n, c, axes);
    } else {
      NoAxes(s, strides, k, n, c);
    }
  }

  lemma NoAxes(s: PixelSelection, strides: seq<nat>, k: seq<nat>, n: seq<nat>, c: seq<nat>)
    requires s.Valid() && |strides| == |s.count| == |k| && |n| == |c|
    ensures Landing(s, strides, k, 0) == 0 == PlaceIn(n[..0], c[..0])
  {}

  lemma LandingStep(s: PixelSelection, strides: seq<nat>, k: seq<nat>, axes: nat)
    requires s.Valid() && |strides| == |s.count| == |k| && 0 < axes <= |k|
    ensures var d := s.destinationToStored[axes - 1];
            Landing(s, strides, k, axes) == Landing(s, strides, k, axes - 1) + k[d] * strides[d]
  {}

  lemma PlaceStep(n: seq<nat>, c: seq<nat>, axes: nat)
    requires |n| == |c| && 0 < axes <= |n|
    ensures PlaceIn(n[..axes], c[..axes])
         == PlaceIn(n[..axes - 1], c[..axes - 1]) + c[axes - 1] * Product(n[..axes - 1])
  {
    assert n[..axes][..axes - 1] == n[..axes - 1] && c[..axes][..axes - 1] == c[..axes - 1];
  }

  lemma PlaceIsDense(s: PixelSelection, strides: seq<nat>, k: seq<nat>)
    requires s.Valid() && StridesOf(s, strides) && |k| == |s.count|
    ensures PlaceOf(s, strides, k)
         == PlaceIn(InOrder(s.destinationToStored, s.count), InOrder(s.destinationToStored, k))
    ensures Product(InOrder(s.destinationToStored, s.count)) == s.elements
    ensures Inside(s.count, k) ==> Inside(InOrder(s.destinationToStored, s.count), InOrder(s.destinationToStored, k))
  {
    hide Product, PlaceIn, Landing;
    LandingIs(s, strides, k, |k|);
    var n, c := InOrder(s.destinationToStored, s.count), InOrder(s.destinationToStored, k);
    assert n[..|k|] == n && c[..|k|] == c;
    ProductOfOrder(s.destinationToStored, s.count);
  }

  // Each selected element lands inside the destination, and no two land together.
  lemma ElementsLandApart(s: PixelSelection, strides: seq<nat>, k: seq<nat>, k': seq<nat>)
    requires s.Valid() && StridesOf(s, strides) && Inside(s.count, k) && Inside(s.count, k')
    ensures PlaceOf(s, strides, k) < s.elements
    ensures PlaceOf(s, strides, k) == PlaceOf(s, strides, k') <==> k == k'
  {
    hide Product, PlaceIn, PlaceOf;
    PlaceIsDense(s, strides, k);
    PlaceIsDense(s, strides, k');
    var order := s.destinationToStored;
    PlaceBelow(InOrder(order, s.count), InOrder(order, k));
    if PlaceOf(s, strides, k) == PlaceOf(s, strides, k') {
      OnePlaceEach(InOrder(order, s.count), InOrder(order, k), InOrder(order, k'));
      OrderIsOnto(order, |order|);
      forall d: nat | d < |k| ensures k[d] == k'[d] {
        assert d in Dims(order);
        var i :| 0 <= i < |order| && order[i] == d;
        assert InOrder(order, k)[i] == InOrder(order, k')[i];
      }
    }
  }

  // And every place of the destination is some selected element's.
  lemma EveryPlaceIsFilled(s: PixelSelection, strides: seq<nat>, p: nat) returns (k: seq<nat>)
    requires s.Valid() && StridesOf(s, strides) && p < s.elements
    ensures Inside(s.count, k) && PlaceOf(s, strides, k) == p
  {
    hide Product, PlaceIn, PlaceOf;
    var order := s.destinationToStored;
    ProductOfOrder(order, s.count);
    var c := APlaceFor(InOrder(order, s.count), p);
    k := Reordering(order, c);
    forall d: nat | d < |k| ensures k[d] < s.count[d] {
      OrderIsOnto(order, |order|);
      assert d in Dims(order);
      var i :| 0 <= i < |order| && order[i] == d;
      assert c[i] < InOrder(order, s.count)[i];
    }
    assert InOrder(order, k) == c;
    PlaceIsDense(s, strides, k);
  }

  // The stored coordinates whose destination coordinates are c.
  lemma Reordering(order: seq<nat>, c: seq<nat>) returns (k: seq<nat>)
    requires IsOrder(order) && |c| == |order|
    ensures |k| == |order| && forall i :: 0 <= i < |order| ==> k[order[i]] == c[i]
  {
    k := c;
    for j := 0 to |order|
      invariant |k| == |order| && forall i :: 0 <= i < j ==> k[order[i]] == c[i]
    {
      k := k[order[j] := c[j]];
    }
  }
}
