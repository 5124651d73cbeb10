// A walk's axes u and v are the image's x and y or the other way about, PlanPass of src/reduce/pass.cc: what
// it adds up is the same in the image's own axes.

module WalkAxes {
  import opened Values
  import opened SlabReduction
  import opened SlabReads

  function Swapped(p: At): At { At(p.v, p.u) }

  ghost function SwapAll(s: set<At>): set<At> {
    set p | p in s :: Swapped(p)
  }

  // Two images that are each other's transpose.
  ghost predicate Transposed(a: Image, b: Image) {
    forall u: nat, v: nat, c: nat :: a(u, v, c) == b(v, u, c)
  }

  lemma {:induction false} OverSwapped(s: set<At>, a: Image, b: Image, channel: nat)
    requires Transposed(a, b)
    ensures Over(SwapAll(s), b, channel) == Over(s, a, channel)
    decreases |s|
  {
    hide *;
    if s == {} {
      NoneSwapped();
      OverNone(a, channel);
      OverNone(b, channel);
    } else {
      var p :| p in s;
      OverTakesAny(s, p, a, channel);
      OneSwapped(s, p);
      OverTakesAny(SwapAll(s), Swapped(p), b, channel);
      OverSwapped(s - {p}, a, b, channel);
      SamePixel(p, a, b, channel);
    }
  }

  lemma NoneSwapped()
    ensures SwapAll({}) == {}
  {}

  lemma OneSwapped(s: set<At>, p: At)
    requires p in s
    ensures Swapped(p) in SwapAll(s) && SwapAll(s) - {Swapped(p)} == SwapAll(s - {p})
  {}

  lemma SamePixel(p: At, a: Image, b: Image, channel: nat)
    requires Transposed(a, b)
    ensures b(Swapped(p).u, Swapped(p).v, channel) == a(p.u, p.v, channel)
  {
    assert a(p.u, p.v, channel) == b(p.v, p.u, channel);
  }

  // The walk's axes: u is the image's y when the store varies y fastest.
  function WalkPlanes(planes: Planes, swapSpatial: bool): Planes {
    if swapSpatial then planes.(axisU := planes.axisV, axisV := planes.axisU) else planes
  }

  lemma ImagesTransposed(planes: Planes, stored: StoredImage)
    requires planes.Valid()
    ensures Transposed(ImageOf(WalkPlanes(planes, true), stored), ImageOf(planes, stored))
  {
    forall u: nat, v: nat, c: nat
      ensures ImageOf(WalkPlanes(planes, true), stored)(u, v, c) == ImageOf(planes, stored)(v, u, c)
    {
      ImageIs(WalkPlanes(planes, true), stored, u, v, c);
      ImageIs(planes, stored, v, u, c);
      assert CoordinatesOf(WalkPlanes(planes, true), u, v, c) == CoordinatesOf(planes, v, u, c);
    }
  }
}
