// How many pixels lie below a value, of a list, of a set and of what has been read. What is counted of the
// pixels below a value is what is added up of an image that has only those: so a sum carried through a read
// carries the count.

module PixelsBelow {
  import opened Values
  import opened Footprints
  import opened SlabReduction
  import opened PlaneReads
  import opened PlaneContents
  import opened TaskSplits
  import G = GrowingHistograms
  import P = ProvisionalHistograms

  // ---- Of a list ----

  ghost function CountBelow(values: seq<real>, e: real): nat {
    if values == [] then 0
    else CountBelow(values[..|values| - 1], e) + if values[|values| - 1] < e then 1 else 0
  }

  // What lies between two values is what lies below one and not below the other.
  lemma {:induction false} CountBetween(values: seq<real>, from: real, to: real)
    requires from <= to
    ensures CountBelow(values, to) == CountBelow(values, from) + G.CountIn(values, from, to)
    decreases |values|
  {
    if values != [] { CountBetween(values[..|values| - 1], from, to); }
  }

  predicate IsBelow(pixel: Double, e: real) { pixel.Finite? && pixel.value < e }

  function Sieve(pixel: Double, e: real): Double { if IsBelow(pixel, e) then pixel else NaN }

  ghost function Sifted(pixels: seq<Double>, e: real): (sifted: seq<Double>)
    ensures |sifted| == |pixels| && forall i :: 0 <= i < |pixels| ==> sifted[i] == Sieve(pixels[i], e)
  {
    seq(|pixels|, i requires 0 <= i < |pixels| => Sieve(pixels[i], e))
  }

  lemma SiftedJoins(a: seq<Double>, b: seq<Double>, e: real)
    ensures Sifted(a + b, e) == Sifted(a, e) + Sifted(b, e)
  {
    hide Sieve;
  }

  lemma {:induction false} SiftedCounts(pixels: seq<Double>, e: real)
    ensures P.Tally(Sifted(pixels, e)).good == CountBelow(P.Finites(pixels), e)
    decreases |pixels|
  {
    if pixels != [] {
      var l := |pixels| - 1;
      SiftedCounts(pixels[..l], e);
      assert Sifted(pixels, e)[..l] == Sifted(pixels[..l], e);
      LastSifted(Sifted(pixels, e), pixels[l], e);
      LastCounted(pixels, e);
      hide P.Tally, P.Finites, Sifted, CountBelow;
    }
  }

  lemma LastSifted(sifted: seq<Double>, pixel: Double, e: real)
    requires sifted != [] && sifted[|sifted| - 1] == Sieve(pixel, e)
    ensures P.Tally(sifted).good == P.Tally(sifted[..|sifted| - 1]).good + if IsBelow(pixel, e) then 1 else 0
  {}

  lemma LastCounted(pixels: seq<Double>, e: real)
    requires pixels != []
    ensures CountBelow(P.Finites(pixels), e)
         == CountBelow(P.Finites(pixels[..|pixels| - 1]), e) + if IsBelow(pixels[|pixels| - 1], e) then 1 else 0
  {
    var before, last := P.Finites(pixels[..|pixels| - 1]), pixels[|pixels| - 1];
    if last.Finite? {
      assert (before + [last.value])[..|before|] == before;
    } else {
      assert before + [] == before;
    }
  }

  // ---- Of a set ----

  ghost function SiftedImage(image: Image, e: real): Image {
    (u: nat, v: nat, c: nat) => Sieve(image(u, v, c), e)
  }

  // The pixels of a set that lie below a value.
  ghost function BelowIn(s: set<At>, image: Image, channel: nat, e: real): set<At> {
    set p | p in s && IsBelow(image(p.u, p.v, channel), e)
  }

  lemma {:induction false} OverSifted(s: set<At>, image: Image, channel: nat, e: real)
    ensures Over(s, SiftedImage(image, e), channel).good == |BelowIn(s, image, channel, e)|
    decreases |s|
  {
    hide Over, Sieve;
    if s == {} {
      OverNone(SiftedImage(image, e), channel);
      assert BelowIn(s, image, channel, e) == {};
    } else {
      var p :| p in s;
      OverTakesAny(s, p, SiftedImage(image, e), channel);
      OverSifted(s - {p}, image, channel, e);
      OneOut(s, p, image, channel, e);
      SievedIs(image(p.u, p.v, channel), e, Over(s - {p}, SiftedImage(image, e), channel));
    }
  }

  lemma OneOut(s: set<At>, p: At, image: Image, channel: nat, e: real)
    requires p in s
    ensures |BelowIn(s, image, channel, e)|
         == |BelowIn(s - {p}, image, channel, e)| + if IsBelow(image(p.u, p.v, channel), e) then 1 else 0
  {
    hide IsBelow;
    if IsBelow(image(p.u, p.v, channel), e) {
      assert BelowIn(s, image, channel, e) == BelowIn(s - {p}, image, channel, e) + {p};
    } else {
      assert BelowIn(s, image, channel, e) == BelowIn(s - {p}, image, channel, e);
    }
  }

  lemma SievedIs(pixel: Double, e: real, t: Totals)
    ensures OfPixel(Sieve(pixel, e)).Plus(t).good == t.good + if IsBelow(pixel, e) then 1 else 0
  {}

  // Of some channels, together.
  ghost function BelowChannels(s: set<At>, image: Image, first: nat, n: nat, e: real): nat {
    if n == 0 then 0 else BelowChannels(s, image, first, n - 1, e) + |BelowIn(s, image, first + n - 1, e)|
  }

  lemma {:induction false} ChannelsSifted(s: set<At>, image: Image, first: nat, n: nat, e: real)
    ensures OverChannels(s, SiftedImage(image, e), first, n).good == BelowChannels(s, image, first, n, e)
  {
    hide Over, BelowIn, SiftedImage;
    if n > 0 {
      ChannelsSifted(s, image, first, n - 1, e);
      OverSifted(s, image, first + n - 1, e);
    }
  }

  // ---- Of a read ----

  ghost function SiftedSlab(slab: Slab, e: real): Slab {
    slab.(pixels := Sifted(slab.pixels, e))
  }

  lemma SlabSifted(slab: Slab, f: SlabFootprint, image: Image, z: nat, e: real)
    requires Showing(slab, f, image, z)
    ensures Showing(SiftedSlab(slab, e), f, SiftedImage(image, e), z)
  {
    hide Sieve, Along;
    var sifted := SiftedSlab(slab, e);
    forall du: nat, dv: nat, dz: nat | du < f.uCount && dv < f.vCount && dz < slab.channelCount
      ensures sifted.Place(du, dv, dz) < |sifted.pixels|
      ensures sifted.pixels[sifted.Place(du, dv, dz)]
           == SiftedImage(image, e)(Along(f.uStart, du, f.uStride), Along(f.vStart, dv, f.vStride), z + dz)
    {
      assert slab.Place(du, dv, dz) < |slab.pixels| && sifted.Place(du, dv, dz) == slab.Place(du, dv, dz);
    }
  }

  lemma ReadableSifted(slab: Slab, rows: nat, e: real)
    requires P.Readable(slab, rows)
    ensures P.Readable(SiftedSlab(slab, e), rows)
    ensures forall index: nat, u: nat :: index < rows && u < slab.uCount ==>
              P.PixelAt(SiftedSlab(slab, e), index, u) == P.PixelAt(slab, index, u) < |slab.pixels|
  {
    hide Sieve;
    var sifted := SiftedSlab(slab, e);
    forall index: nat, u: nat | index < rows && u < slab.uCount
      ensures P.PixelAt(sifted, index, u) == P.PixelAt(slab, index, u) < |slab.pixels| == |sifted.pixels|
    {}
  }

  lemma RowSifted(slab: Slab, rows: nat, index: nat, e: real)
    requires P.Readable(slab, rows) && P.Readable(SiftedSlab(slab, e), rows) && index < rows
    ensures P.RowPixels(SiftedSlab(slab, e), rows, index) == Sifted(P.RowPixels(slab, rows, index), e)
  {
    ReadableSifted(slab, rows, e);
    hide Sieve, P.PixelAt;
  }

  lemma {:induction false} RowsSifted(slab: Slab, rows: nat, first: nat, last: nat, e: real)
    requires P.Readable(slab, rows) && P.Readable(SiftedSlab(slab, e), rows) && first <= last <= rows
    ensures P.RowsPixels(SiftedSlab(slab, e), rows, first, last) == Sifted(P.RowsPixels(slab, rows, first, last), e)
    decreases last
  {
    hide Sieve, P.RowPixels, P.Readable, SiftedSlab;
    if first < last {
      RowsSifted(slab, rows, first, last - 1, e);
      RowSifted(slab, rows, last - 1, e);
      SiftedJoins(P.RowsPixels(slab, rows, first, last - 1), P.RowPixels(slab, rows, last - 1), e);
    }
  }

  lemma ShareSifted(slab: Slab, rows: nat, tasks: nat, task: nat, e: real)
    requires P.Readable(slab, rows) && P.Readable(SiftedSlab(slab, e), rows)
    ensures P.Share(SiftedSlab(slab, e), rows, tasks, task) == Sifted(P.Share(slab, rows, tasks, task), e)
  {
    hide Sieve, P.RowsPixels, P.Readable, SiftedSlab;
    if tasks <= 1 {
      RowsSifted(slab, rows, 0, rows, e);
    } else if task < tasks {
      var share := TaskRows(task, tasks, rows);
      RowsSifted(slab, rows, share.first, share.last, e);
    }
  }

  // ---- Of what several tasks have taken ----

  ghost function SiftedAll(takens: seq<seq<Double>>, e: real): (sifted: seq<seq<Double>>)
    ensures |sifted| == |takens| && forall i :: 0 <= i < |takens| ==> sifted[i] == Sifted(takens[i], e)
  {
    seq(|takens|, i requires 0 <= i < |takens| => Sifted(takens[i], e))
  }

  // What the tasks of one read add, below any value: the read's.
  lemma ReadSifted(slab: Slab, f: SlabFootprint, image: Image, z: nat, tasks: nat, before: seq<seq<Double>>,
                   after: seq<seq<Double>>, e: real)
    requires Showing(slab, f, image, z) && f.uStride > 0 && f.vStride > 0
    requires P.Readable(slab, RowsOf(slab, slab.channelCount)) && 0 < tasks <= |before| == |after|
    requires forall i :: 0 <= i < |before| ==>
               after[i] == before[i] + P.Share(slab, RowsOf(slab, slab.channelCount), tasks, i)
    ensures P.TallyAll(SiftedAll(after, e))
         == P.TallyAll(SiftedAll(before, e)).Plus(OverChannels(Footing(f), SiftedImage(image, e), z, slab.channelCount))
  {
    var rows, sifted := RowsOf(slab, slab.channelCount), SiftedSlab(slab, e);
    assert RowsOf(sifted, sifted.channelCount) == rows && sifted.channelCount == slab.channelCount;
    hide *;
    ReadableSifted(slab, rows, e);
    var b, a := SiftedAll(before, e), SiftedAll(after, e);
    forall i | 0 <= i < |before| ensures a[i] == b[i] + P.Share(sifted, rows, tasks, i) {
      ShareSifted(slab, rows, tasks, i, e);
      SiftedJoins(before[i], P.Share(slab, rows, tasks, i), e);
    }
    P.SharesAreTheRead(sifted, rows, tasks, b, a, |before|);
    P.AllShared(rows, tasks, |before|);
    assert a[..|before|] == a && b[..|before|] == b;
    SlabSifted(slab, f, image, z, e);
    ShowingIsWhole(sifted, f, SiftedImage(image, e), z);
    ReadHolds(sifted, f, SiftedImage(image, e), z, sifted.channelCount);
  }

  // How many the tasks have taken.
  ghost function BelowAll(addeds: seq<seq<real>>, e: real): nat {
    if addeds == [] then 0 else BelowAll(addeds[..|addeds| - 1], e) + CountBelow(addeds[|addeds| - 1], e)
  }

  lemma {:induction false} AllSiftedCounts(takens: seq<seq<Double>>, addeds: seq<seq<real>>, e: real)
    requires |takens| == |addeds| && forall i :: 0 <= i < |takens| ==> addeds[i] == P.Finites(takens[i])
    ensures P.TallyAll(SiftedAll(takens, e)).good == BelowAll(addeds, e)
    decreases |takens|
  {
    hide P.Tally, P.Finites, Sifted, CountBelow;
    if takens != [] {
      var l := |takens| - 1;
      AllSiftedCounts(takens[..l], addeds[..l], e);
      assert SiftedAll(takens, e)[..l] == SiftedAll(takens[..l], e);
      SiftedCounts(takens[l], e);
    }
  }
}
