// Reading a slab in stored order and turning its flagged pixels to NaN: SlabWalk::ReadSlab,
// src/reduce/pass_read.cc, and ApplyPixelMask, src/pixel_mask.h.

module SlabReads {
  import opened Wrappers
  import opened Values
  import opened Footprints
  import opened PixelSelections
  import opened SlabReduction

  // ---- The image behind a read ----

  // What is stored: a pixel and a byte of flag for every list of stored coordinates.
  datatype StoredImage = StoredImage(pixel: seq<nat> -> Double, flag: seq<nat> -> Byte)

  // What serves a read, which may fail.
  datatype PixelSource = PixelSource(readPixels: PixelSelection -> Option<seq<Double>>,
                                     readMask: PixelSelection -> Option<seq<Byte>>)

  // The stored coordinates of a selected element.
  ghost function Coordinates(s: PixelSelection, k: seq<nat>): seq<nat>
    requires |s.start| == |s.stride| == |k|
  {
    seq(|k|, d requires 0 <= d < |k| => s.start[d] + k[d] * s.stride[d])
  }

  // A destination filled by a read: each selected element where it lands.
  ghost predicate Filled<T>(s: PixelSelection, strides: seq<nat>, destination: seq<T>, value: seq<nat> -> T)
    requires s.Valid() && StridesOf(s, strides)
  {
    && |destination| == s.elements
    && forall k :: Inside(s.count, k) ==>
         PlaceOf(s, strides, k) < |destination| && destination[PlaceOf(s, strides, k)] == value(Coordinates(s, k))
  }

  // A read that succeeds gives what is stored.
  ghost predicate ServesImage(source: PixelSource, stored: StoredImage) {
    && (forall s: PixelSelection, strides: seq<nat> ::
          s.Valid() && StridesOf(s, strides) && source.readPixels(s).Some? ==>
            Filled(s, strides, source.readPixels(s).value, stored.pixel))
    && (forall s: PixelSelection, strides: seq<nat> ::
          s.Valid() && StridesOf(s, strides) && source.readMask(s).Some? ==>
            Filled(s, strides, source.readMask(s).value, stored.flag))
  }

  // A nonzero byte drops its pixel.
  function Masked(pixel: Double, flag: Byte): Double {
    if flag != 0 then NaN else pixel
  }

  method ApplyPixelMask(pixels: seq<Double>, mask: seq<Byte>) returns (masked: seq<Double>)
    requires |mask| == |pixels|
    ensures |masked| == |pixels| && forall i :: 0 <= i < |pixels| ==> masked[i] == Masked(pixels[i], mask[i])
  {
    masked := pixels;
    for i := 0 to |pixels|
      invariant |masked| == |pixels|
      invariant forall j :: 0 <= j < |pixels| ==> masked[j] == if j < i then Masked(pixels[j], mask[j]) else pixels[j]
    {
      if mask[i] != 0 {
        masked := masked[i := NaN];
      }
    }
  }

  // ---- The walk's axes ----

  // The logical axes a pass walks, the planes it was asked for, and whether it folds the mask in.
  datatype Planes = Planes(axes: seq<Axis>, axisU: nat, axisV: nat, spectral: nat, polarization: Option<nat>,
                           time: Option<nat>, channels: Range, polarizationIndex: nat, timeIndex: nat, applyMask: bool)
  {
    ghost predicate Valid() {
      && StoredApart(axes)
      && axisU < |axes| && axisV < |axes| && spectral < |axes|
      && axisU != axisV && axisU != spectral && axisV != spectral
      && (polarization.Some? ==>
            polarization.value < |axes| && polarization.value != axisU && polarization.value != axisV
            && polarization.value != spectral)
      && (time.Some? ==>
            time.value < |axes| && time.value != axisU && time.value != axisV && time.value != spectral
            && polarization != time)
    }

    // Where the planes asked for are along an axis the walk does not move along.
    function Fixed(logical: nat): nat {
      if polarization == Some(logical) then polarizationIndex else if time == Some(logical) then timeIndex else 0
    }

    // The coordinate along a logical axis of the pixel at (u, v) of one channel of the selection.
    function Coordinate(logical: nat, u: nat, v: nat, c: nat): nat {
      if logical == axisU then u
      else if logical == axisV then v
      else if logical == spectral then channels.start + c * channels.stride
      else Fixed(logical)
    }
  }

  // The logical axis stored as dimension d.
  ghost function AxisAt(axes: seq<Axis>, d: nat): nat
  {
    if i :| 0 <= i < |axes| && axes[i].storageIndex == d then i else 0
  }

  lemma AxisAtIs(axes: seq<Axis>, i: nat)
    requires StoredApart(axes) && i < |axes|
    ensures AxisAt(axes, axes[i].storageIndex) == i
  {}

  // The image as the walk sees it.
  ghost function ImageOf(planes: Planes, stored: StoredImage): Image {
    (u: nat, v: nat, c: nat) =>
      var at := seq(|planes.axes|,
                    d requires 0 <= d < |planes.axes| => planes.Coordinate(AxisAt(planes.axes, d), u, v, c));
      if planes.applyMask then Masked(stored.pixel(at), stored.flag(at)) else stored.pixel(at)
  }

  // ---- Reading ----

  // The request for one slab over every logical axis.
  function RequestOf(planes: Planes, f: SlabFootprint, channel: nat, count: nat): (request: seq<Range>)
    requires planes.axisU < |planes.axes| && planes.axisV < |planes.axes| && planes.spectral < |planes.axes|
    ensures |request| == |planes.axes|
  {
    seq(|planes.axes|, i requires 0 <= i < |planes.axes| =>
      if i == planes.axisU then Range(f.uStart, f.uCount, f.uStride)
      else if i == planes.axisV then Range(f.vStart, f.vCount, f.vStride)
      else if i == planes.spectral then
        Range(planes.channels.start + channel * planes.channels.stride, count, planes.channels.stride)
      else Range(planes.Fixed(i), 1, 1))
  }

  // The element of a slab a walk finds at (du, dv, dz), in stored coordinates of the selection.
  ghost function ElementAt(planes: Planes, du: nat, dv: nat, dz: nat): (k: seq<nat>)
    ensures |k| == |planes.axes|
  {
    seq(|planes.axes|, d requires 0 <= d < |planes.axes| =>
      var i := AxisAt(planes.axes, d);
      if i == planes.axisU then du else if i == planes.axisV then dv else if i == planes.spectral then dz else 0)
  }

  method ReadSlab(source: PixelSource, planes: Planes, f: SlabFootprint, channel: nat, count: nat, first: nat,
                  ghost stored: StoredImage)
    returns (slab: Option<Slab>)
    requires planes.Valid() && ServesImage(source, stored)
    ensures slab.Some? ==>
              && SlabShows(slab.value, f, ImageOf(planes, stored), channel)
              && slab.value.channelCount == count && slab.value.firstChannel == first
              && slab.value.uCount == f.uCount > 0 && slab.value.vCount == f.vCount > 0
  {
    hide *;
    PlanesMean(planes);
    var request := RequestOf(planes, f, channel, count);
    var built := BuildSelection(planes.axes, request, Stored);
    if built.Err? {
      return None;
    }
    var s := built.value;
    var strides := DestinationStrides(s);
    var read := source.readPixels(s);
    if read.None? {
      return None;
    }
    var pixels := read.value;
    ReadIsFilled(source, stored, s, strides);
    if planes.applyMask {
      var mask := source.readMask(s);
      if mask.None? {
        return None;
      }
      pixels := ApplyPixelMask(pixels, mask.value);
    }
    ItIsFolded(planes.applyMask, source, s, pixels);
    StoredInRange(planes, s, request);
    SelectsSome(planes, f, channel, count);
    slab := Some(Slab(first, count, pixels,
                      strides[planes.axes[planes.axisU].storageIndex],
                      strides[planes.axes[planes.axisV].storageIndex],
                      strides[planes.axes[planes.spectral].storageIndex], f.uCount, f.vCount));
    forall du: nat, dv: nat, dz: nat | du < f.uCount && dv < f.vCount && dz < count
      ensures slab.value.Place(du, dv, dz) < |pixels|
      ensures pixels[slab.value.Place(du, dv, dz)]
           == ImageOf(planes, stored)(Along(f.uStart, du, f.uStride), Along(f.vStart, dv, f.vStride), channel + dz)
    {
      SlabElement(planes, stored, source, s, strides, f, channel, count, du, dv, dz, pixels, slab.value);
    }
    ItShows(slab.value, f, ImageOf(planes, stored), channel);
  }

  // A request that is served selects something along every axis.
  lemma SelectsSome(planes: Planes, f: SlabFootprint, channel: nat, count: nat)
    requires planes.Valid() && Serves(planes.axes, RequestOf(planes, f, channel, count))
    ensures f.uCount > 0 && f.vCount > 0
  {
    var request := RequestOf(planes, f, channel, count);
    assert ServesAxis(planes.axes, request, planes.axisU) && ServesAxis(planes.axes, request, planes.axisV);
  }

  lemma PlanesMean(planes: Planes)
    requires planes.Valid()
    ensures StoredApart(planes.axes) && planes.axisU < |planes.axes| && planes.axisV < |planes.axes|
    ensures planes.spectral < |planes.axes|
  {}

  lemma ReadIsFilled(source: PixelSource, stored: StoredImage, s: PixelSelection, strides: seq<nat>)
    requires ServesImage(source, stored) && s.Valid() && StridesOf(s, strides)
    ensures source.readPixels(s).Some? ==>
              Filled(s, strides, source.readPixels(s).value, stored.pixel) && |source.readPixels(s).value| == s.elements
    ensures source.readMask(s).Some? ==>
              Filled(s, strides, source.readMask(s).value, stored.flag) && |source.readMask(s).value| == s.elements
  {}

  lemma StoredInRange(planes: Planes, s: PixelSelection, request: seq<Range>)
    requires planes.Valid() && s.Valid() && Selects(s, planes.axes, request, |planes.axes|)
    ensures forall i :: 0 <= i < |planes.axes| ==> planes.axes[i].storageIndex < |s.count|
    ensures forall strides :: StridesOf(s, strides) ==> |strides| == |s.count|
  {
    forall i | 0 <= i < |planes.axes| ensures planes.axes[i].storageIndex < |s.count| {
      assert SelectsAxis(s, planes.axes[i].storageIndex, request[i]);
    }
  }

  lemma ItShows(slab: Slab, f: SlabFootprint, image: Image, z: nat)
    requires forall du: nat, dv: nat, dz: nat :: du < f.uCount && dv < f.vCount && dz < slab.channelCount ==>
               && slab.Place(du, dv, dz) < |slab.pixels|
               && slab.pixels[slab.Place(du, dv, dz)]
                   == image(Along(f.uStart, du, f.uStride), Along(f.vStart, dv, f.vStride), z + dz)
    ensures SlabShows(slab, f, image, z)
  {}

  // The pixels of a read, the mask folded in.
  ghost predicate Folded(applyMask: bool, source: PixelSource, s: PixelSelection, pixels: seq<Double>) {
    && source.readPixels(s).Some? && |source.readPixels(s).value| == |pixels|
    && if applyMask then
         && source.readMask(s).Some? && |source.readMask(s).value| == |pixels|
         && (forall i :: 0 <= i < |pixels| ==>
             pixels[i] == Masked(source.readPixels(s).value[i], source.readMask(s).value[i]))
       else pixels == source.readPixels(s).value
  }

  lemma ItIsFolded(applyMask: bool, source: PixelSource, s: PixelSelection, pixels: seq<Double>)
    requires source.readPixels(s).Some? && |source.readPixels(s).value| == |pixels|
    requires applyMask ==>
               && source.readMask(s).Some? && |source.readMask(s).value| == |pixels|
               && forall i :: 0 <= i < |pixels| ==>
                   pixels[i] == Masked(source.readPixels(s).value[i], source.readMask(s).value[i])
    requires !applyMask ==> pixels == source.readPixels(s).value
    ensures Folded(applyMask, source, s, pixels)
  {}

  // A folded pixel is what is stored, masked.
  lemma FoldedAt(applyMask: bool, source: PixelSource, stored: StoredImage, s: PixelSelection, strides: seq<nat>,
                 pixels: seq<Double>, k: seq<nat>)
    requires ServesImage(source, stored) && s.Valid() && StridesOf(s, strides) && Inside(s.count, k)
    requires Folded(applyMask, source, s, pixels)
    ensures |k| == |s.start| == |s.stride| && |strides| == |s.count|
    ensures PlaceOf(s, strides, k) < |pixels|
    ensures pixels[PlaceOf(s, strides, k)]
         == var at := Coordinates(s, k);
            if applyMask then Masked(stored.pixel(at), stored.flag(at)) else stored.pixel(at)
  {
    ReadIsFilled(source, stored, s, strides);
    hide PlaceOf, Coordinates, PixelSelection.Valid, StridesOf, ServesImage, Masked;
    FilledAt(s, strides, source.readPixels(s).value, stored.pixel, k);
    if applyMask { FilledAt(s, strides, source.readMask(s).value, stored.flag, k); }
  }

  // One element: it is one the read selected, it lands where the slab's steps find it, and it is the
  // image's pixel there.
  lemma SlabElement(planes: Planes, stored: StoredImage, source: PixelSource, s: PixelSelection, strides: seq<nat>,
                    f: SlabFootprint, channel: nat, count: nat, du: nat, dv: nat, dz: nat, pixels: seq<Double>,
                    slab: Slab)
    requires planes.Valid() && ServesImage(source, stored) && s.Valid() && StridesOf(s, strides)
    requires Selects(s, planes.axes, RequestOf(planes, f, channel, count), |planes.axes|)
    requires OrderIs(s, planes.axes, Stored, |planes.axes|)
    requires Folded(planes.applyMask, source, s, pixels)
    requires du < f.uCount && dv < f.vCount && dz < count
    requires forall i :: 0 <= i < |planes.axes| ==> planes.axes[i].storageIndex < |strides|
    requires slab.strideU == strides[planes.axes[planes.axisU].storageIndex]
    requires slab.strideV == strides[planes.axes[planes.axisV].storageIndex]
    requires slab.strideZ == strides[planes.axes[planes.spectral].storageIndex]
    ensures slab.Place(du, dv, dz) < |pixels|
    ensures pixels[slab.Place(du, dv, dz)]
         == ImageOf(planes, stored)(Along(f.uStart, du, f.uStride), Along(f.vStart, dv, f.vStride), channel + dz)
  {
    hide *;
    var k := ElementAt(planes, du, dv, dz);
    PlanesMean(planes);
    EveryDimensionIsAnAxis(planes.axes, RequestOf(planes, f, channel, count), s);
    SelectionShape(planes.axes, RequestOf(planes, f, channel, count), s, strides);
    SlabCoordinates(planes, s, f, channel, count, du, dv, dz);
    ElementLands(planes, s, strides, du, dv, dz, slab);
    FoldedAt(planes.applyMask, source, stored, s, strides, pixels, k);
    ImageIs(planes, stored, Along(f.uStart, du, f.uStride), Along(f.vStart, dv, f.vStride), channel + dz);
  }

  lemma SelectionShape(axes: seq<Axis>, request: seq<Range>, s: PixelSelection, strides: seq<nat>)
    requires Selects(s, axes, request, |axes|) && s.Valid() && StridesOf(s, strides)
    ensures |s.count| == |axes| == |strides|
  {}

  lemma FilledAt<T>(s: PixelSelection, strides: seq<nat>, destination: seq<T>, value: seq<nat> -> T, k: seq<nat>)
    requires s.Valid() && StridesOf(s, strides) && Filled(s, strides, destination, value) && Inside(s.count, k)
    ensures |k| == |s.start| == |s.stride| && |strides| == |s.count|
    ensures PlaceOf(s, strides, k) < |destination| && destination[PlaceOf(s, strides, k)] == value(Coordinates(s, k))
  {}

  ghost function CoordinatesOf(planes: Planes, u: nat, v: nat, c: nat): seq<nat> {
    seq(|planes.axes|, d requires 0 <= d < |planes.axes| => planes.Coordinate(AxisAt(planes.axes, d), u, v, c))
  }

  lemma ImageIs(planes: Planes, stored: StoredImage, u: nat, v: nat, c: nat)
    ensures ImageOf(planes, stored)(u, v, c)
         == var at := CoordinatesOf(planes, u, v, c);
            if planes.applyMask then Masked(stored.pixel(at), stored.flag(at)) else stored.pixel(at)
  {
    hide Masked, AxisAt;
    assert CoordinatesOf(planes, u, v, c)
        == seq(|planes.axes|, d requires 0 <= d < |planes.axes| => planes.Coordinate(AxisAt(planes.axes, d), u, v, c));
  }

  // A step over one element moves nowhere; over two or more it is the request's.
  lemma Step(range: Range, k: nat)
    requires k < range.count
    ensures range.start + k * StrideOf(range) == range.start + k * range.stride
  {}

  lemma SlabCoordinates(planes: Planes, s: PixelSelection, f: SlabFootprint, channel: nat, count: nat, du: nat, dv: nat,
                        dz: nat)
    requires planes.Valid() && s.Valid() && Onto(planes.axes)
    requires Selects(s, planes.axes, RequestOf(planes, f, channel, count), |planes.axes|)
    requires du < f.uCount && dv < f.vCount && dz < count
    ensures var k := ElementAt(planes, du, dv, dz);
            && Inside(s.count, k) && |s.start| == |s.stride| == |k|
            && Coordinates(s, k) == CoordinatesOf(planes, Along(f.uStart, du, f.uStride),
                                                  Along(f.vStart, dv, f.vStride), channel + dz)
  {
    var k, request := ElementAt(planes, du, dv, dz), RequestOf(planes, f, channel, count);
    hide AxisAt, StoredApart, PixelSelection.Valid, StrideOf;
    forall d | 0 <= d < |planes.axes|
      ensures k[d] < s.count[d]
      ensures s.start[d] + k[d] * s.stride[d]
           == planes.Coordinate(AxisAt(planes.axes, d), Along(f.uStart, du, f.uStride), Along(f.vStart, dv, f.vStride),
                                channel + dz)
    {
      var i := AxisAt(planes.axes, d);
      assert SelectsAxis(s, planes.axes[i].storageIndex, request[i]);
      DimensionCoordinate(planes, f, channel, count, i, du, dv, dz, k[d]);
    }
  }

  lemma DimensionCoordinate(planes: Planes, f: SlabFootprint, channel: nat, count: nat, i: nat, du: nat, dv: nat,
                            dz: nat, k: nat)
    requires planes.Valid() && i < |planes.axes| && du < f.uCount && dv < f.vCount && dz < count
    requires k == if i == planes.axisU then du else if i == planes.axisV then dv else if i == planes.spectral then dz
              else 0
    ensures var range := RequestOf(planes, f, channel, count)[i];
            && k < range.count
            && range.start + k * StrideOf(range)
               == planes.Coordinate(i, Along(f.uStart, du, f.uStride), Along(f.vStart, dv, f.vStride), channel + dz)
  {
    Step(RequestOf(planes, f, channel, count)[i], k);
    if i == planes.spectral { ChannelStep(planes.channels, channel, dz); }
    hide StrideOf, Planes.Valid;
  }

  lemma ChannelStep(channels: Range, channel: nat, dz: nat)
    ensures channels.start + channel * channels.stride + dz * channels.stride
         == channels.start + (channel + dz) * channels.stride
  {}

  // Every stored dimension is some axis's.
  ghost predicate Onto(axes: seq<Axis>) {
    forall d :: 0 <= d < |axes| ==> AxisAt(axes, d) < |axes| && axes[AxisAt(axes, d)].storageIndex == d
  }

  lemma EveryDimensionIsAnAxis(axes: seq<Axis>, request: seq<Range>, s: PixelSelection)
    requires StoredApart(axes) && Selects(s, axes, request, |axes|)
    ensures Onto(axes)
  {
    var stored: seq<nat> := seq(|axes|, i requires 0 <= i < |axes| => axes[i].storageIndex);
    forall j | 0 <= j < |axes| ensures stored[j] < |axes| {
      assert SelectsAxis(s, axes[j].storageIndex, request[j]);
    }
    OrderIsOnto(stored, |axes|);
    forall d: nat | d < |axes| ensures AxisAt(axes, d) < |axes| && axes[AxisAt(axes, d)].storageIndex == d {
      assert d in Dims(stored);
      var i :| 0 <= i < |stored| && stored[i] == d;
      assert axes[i].storageIndex == d;
    }
  }

  // Only the three axes a walk moves along carry an element anywhere.
  lemma ElementLands(planes: Planes, s: PixelSelection, strides: seq<nat>, du: nat, dv: nat, dz: nat, slab: Slab)
    requires planes.Valid() && s.Valid() && |s.count| == |planes.axes| == |strides| && Onto(planes.axes)
    requires OrderIs(s, planes.axes, Stored, |planes.axes|)
    requires forall i :: 0 <= i < |planes.axes| ==> planes.axes[i].storageIndex < |strides|
    requires slab.strideU == strides[planes.axes[planes.axisU].storageIndex]
    requires slab.strideV == strides[planes.axes[planes.axisV].storageIndex]
    requires slab.strideZ == strides[planes.axes[planes.spectral].storageIndex]
    ensures PlaceOf(s, strides, ElementAt(planes, du, dv, dz)) == slab.Place(du, dv, dz)
  {
    LandsSoFar(planes, s, strides, du, dv, dz, |planes.axes|);
  }

  // What a dimension carries once the last n have been counted.
  function Carried(d: nat, n: nat, rank: nat, k: nat, stride: nat): nat {
    if rank - n <= d then k * stride else 0
  }

  ghost function CarriedByThree(planes: Planes, strides: seq<nat>, du: nat, dv: nat, dz: nat, n: nat): nat
    requires planes.Valid() && |planes.axes| == |strides|
    requires forall i :: 0 <= i < |planes.axes| ==> planes.axes[i].storageIndex < |strides|
  {
    var a := planes.axes[planes.axisU].storageIndex;
    var b := planes.axes[planes.axisV].storageIndex;
    var c := planes.axes[planes.spectral].storageIndex;
    Carried(a, n, |strides|, du, strides[a]) + Carried(b, n, |strides|, dv, strides[b])
      + Carried(c, n, |strides|, dz, strides[c])
  }

  lemma {:induction false} LandsSoFar(planes: Planes, s: PixelSelection, strides: seq<nat>, du: nat, dv: nat, dz: nat,
                                      n: nat)
    requires planes.Valid() && s.Valid() && |s.count| == |planes.axes| == |strides| && n <= |planes.axes|
    requires OrderIs(s, planes.axes, Stored, |planes.axes|) && Onto(planes.axes)
    requires forall i :: 0 <= i < |planes.axes| ==> planes.axes[i].storageIndex < |strides|
    ensures Landing(s, strides, ElementAt(planes, du, dv, dz), n) == CarriedByThree(planes, strides, du, dv, dz, n)
  {
    hide *;
    if n == 0 {
      NothingLands(planes, s, strides, du, dv, dz);
    } else {
      LandsSoFar(planes, s, strides, du, dv, dz, n - 1);
      InStoredOrder(s, planes.axes, n - 1);
      var k, d := ElementAt(planes, du, dv, dz), |planes.axes| - n;
      LandingStep(s, strides, k, n);
      ElementIs(planes, d, du, dv, dz);
      OneMoreDimension(planes, strides, du, dv, dz, n, k[d]);
    }
  }

  lemma NothingLands(planes: Planes, s: PixelSelection, strides: seq<nat>, du: nat, dv: nat, dz: nat)
    requires planes.Valid() && s.Valid() && |s.count| == |planes.axes| == |strides|
    requires forall i :: 0 <= i < |planes.axes| ==> planes.axes[i].storageIndex < |strides|
    ensures Landing(s, strides, ElementAt(planes, du, dv, dz), 0) == 0
    ensures CarriedByThree(planes, strides, du, dv, dz, 0) == 0
  {
    hide ElementAt, PixelSelection.Valid;
  }

  lemma InStoredOrder(s: PixelSelection, axes: seq<Axis>, i: nat)
    requires OrderIs(s, axes, Stored, |axes|) && i < |axes|
    ensures i < |s.destinationToStored| == |axes| && s.destinationToStored[i] == |axes| - 1 - i
  {}

  lemma OneMoreDimension(planes: Planes, strides: seq<nat>, du: nat, dv: nat, dz: nat, n: nat, k: nat)
    requires planes.Valid() && |planes.axes| == |strides| && 0 < n <= |strides|
    requires forall i :: 0 <= i < |planes.axes| ==> planes.axes[i].storageIndex < |strides|
    requires var d := |strides| - n;
             k == if d == planes.axes[planes.axisU].storageIndex then du
                  else if d == planes.axes[planes.axisV].storageIndex then dv
                  else if d == planes.axes[planes.spectral].storageIndex then dz else 0
    ensures CarriedByThree(planes, strides, du, dv, dz, n)
         == CarriedByThree(planes, strides, du, dv, dz, n - 1) + k * strides[|strides| - n]
  {}

  lemma ElementIs(planes: Planes, d: nat, du: nat, dv: nat, dz: nat)
    requires planes.Valid() && Onto(planes.axes) && d < |planes.axes|
    ensures ElementAt(planes, du, dv, dz)[d]
         == if d == planes.axes[planes.axisU].storageIndex then du
            else if d == planes.axes[planes.axisV].storageIndex then dv
            else if d == planes.axes[planes.spectral].storageIndex then dz else 0
  {
    var i := AxisAt(planes.axes, d);
    hide AxisAt;
  }
}
