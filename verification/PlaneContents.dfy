// What the rows of one read hold: the image's pixels over the footprint that was read, each once.

module PlaneContents {
  import opened Values
  import opened Footprints
  import opened SlabReduction
  import opened PlaneReads
  import opened PlaneHistograms
  import P = ProvisionalHistograms
  import B = ChunkBlocks

  // A read of a footprint, from channel z of the selection on.
  ghost predicate Showing(slab: Slab, f: SlabFootprint, image: Image, z: nat) {
    && SlabShows(slab, f, image, z)
    && slab.uCount == f.uCount > 0 && slab.vCount == f.vCount > 0
  }

  lemma ShowingIsWhole(slab: Slab, f: SlabFootprint, image: Image, z: nat)
    requires Showing(slab, f, image, z)
    ensures Entire(slab)
  {
    forall index: nat, u: nat | index < slab.channelCount * slab.vCount && u < slab.uCount
      ensures P.PixelAt(slab, index, u) < |slab.pixels|
    {
      var dz, dv := index / slab.vCount, index % slab.vCount;
      B.AtOrPast(slab.channelCount, index, slab.vCount);
      assert slab.Place(u, dv, dz) < |slab.pixels|;
    }
  }

  // ---- A row ----

  ghost function RowSet(f: SlabFootprint, dv: nat, n: nat): set<At> {
    set du: nat | du < n :: At(Along(f.uStart, du, f.uStride), Along(f.vStart, dv, f.vStride))
  }

  ghost function RowsSet(f: SlabFootprint, m: nat): set<At> {
    set du: nat, dv: nat | du < f.uCount && dv < m :: At(Along(f.uStart, du, f.uStride), Along(f.vStart, dv, f.vStride))
  }

  // The pixels of a set that are in a bin.
  ghost function InSet(s: set<At>, image: Image, channel: nat, bins: Bins, b: nat): set<At>
    requires bins.Valid()
  {
    set p | p in s && BinOf(bins, image(p.u, p.v, channel)) == b
  }

  lemma AlongApart(start: nat, a: nat, b: nat, stride: nat)
    requires stride > 0 && a != b
    ensures Along(start, a, stride) != Along(start, b, stride)
  {
    if a < b { B.MulMono(a + 1, b, stride); } else { B.MulMono(b + 1, a, stride); }
  }

  lemma OneMoreOfRow(f: SlabFootprint, dv: nat, n: nat)
    requires f.uStride > 0
    ensures var p := At(Along(f.uStart, n, f.uStride), Along(f.vStart, dv, f.vStride));
            RowSet(f, dv, n + 1) == RowSet(f, dv, n) + {p} && p !in RowSet(f, dv, n)
  {
    forall du: nat | du < n ensures Along(f.uStart, du, f.uStride) != Along(f.uStart, n, f.uStride) {
      AlongApart(f.uStart, du, n, f.uStride);
    }
    hide Along;
  }

  lemma OneMoreRowOf(f: SlabFootprint, m: nat)
    requires f.vStride > 0
    ensures RowsSet(f, m + 1) == RowsSet(f, m) + RowSet(f, m, f.uCount) && RowsSet(f, m) !! RowSet(f, m, f.uCount)
  {
    forall dv: nat | dv < m ensures Along(f.vStart, dv, f.vStride) != Along(f.vStart, m, f.vStride) {
      AlongApart(f.vStart, dv, m, f.vStride);
    }
    hide Along;
  }

  lemma OverOneMore(s: set<At>, p: At, image: Image, channel: nat)
    requires p !in s
    ensures Over(s + {p}, image, channel) == OfPixel(image(p.u, p.v, channel)).Plus(Over(s, image, channel))
  {
    OverTakesAny(s + {p}, p, image, channel);
    assert s + {p} - {p} == s;
  }

  lemma InSetOneMore(s: set<At>, p: At, image: Image, channel: nat, bins: Bins, b: nat)
    requires bins.Valid() && p !in s
    ensures |InSet(s + {p}, image, channel, bins, b)|
         == |InSet(s, image, channel, bins, b)| + if BinOf(bins, image(p.u, p.v, channel)) == b then 1 else 0
  {
    hide BinOf;
    if BinOf(bins, image(p.u, p.v, channel)) == b {
      assert InSet(s + {p}, image, channel, bins, b) == InSet(s, image, channel, bins, b) + {p};
    } else {
      assert InSet(s + {p}, image, channel, bins, b) == InSet(s, image, channel, bins, b);
    }
  }

  lemma InSetUnion(s: set<At>, t: set<At>, image: Image, channel: nat, bins: Bins, b: nat)
    requires bins.Valid() && s !! t
    ensures |InSet(s + t, image, channel, bins, b)|
         == |InSet(s, image, channel, bins, b)| + |InSet(t, image, channel, bins, b)|
  {
    hide BinOf;
    assert InSet(s + t, image, channel, bins, b)
        == InSet(s, image, channel, bins, b) + InSet(t, image, channel, bins, b);
    assert InSet(s, image, channel, bins, b) !! InSet(t, image, channel, bins, b);
  }

  lemma PixelShown(slab: Slab, f: SlabFootprint, image: Image, z: nat, dz: nat, dv: nat, du: nat)
    requires Showing(slab, f, image, z) && Entire(slab) && dz < slab.channelCount && dv < slab.vCount
    requires du < slab.uCount
    ensures PlaneRow(slab, dz, dv)[du] == image(Along(f.uStart, du, f.uStride), Along(f.vStart, dv, f.vStride), z + dz)
  {
    PlaneRowHas(slab, dz, dv, du);
    hide PlaneRow, Along, Slab.Place, Entire;
  }

  lemma {:induction false} RowHolds(slab: Slab, f: SlabFootprint, image: Image, z: nat, dz: nat, dv: nat, n: nat,
                                    bins: Bins, b: nat)
    requires Showing(slab, f, image, z) && Entire(slab) && dz < slab.channelCount && dv < slab.vCount
    requires n <= slab.uCount
    requires f.uStride > 0 && bins.Valid()
    ensures var row := PlaneRow(slab, dz, dv)[..n];
      && P.Tally(row) == Over(RowSet(f, dv, n), image, z + dz)
      && InBin(row, bins, b) == |InSet(RowSet(f, dv, n), image, z + dz, bins, b)|
  {
    hide *;
    if n == 0 {
      NoneOfRow(f, dv, image, z + dz, bins, b);
      assert PlaneRow(slab, dz, dv)[..0] == [];
    } else {
      RowHolds(slab, f, image, z, dz, dv, n - 1, bins, b);
      RowInSlab(slab, f, image, z);
      PixelShown(slab, f, image, z, dz, dv, n - 1);
      OneMoreOfRow(f, dv, n - 1);
      var p := At(Along(f.uStart, n - 1, f.uStride), Along(f.vStart, dv, f.vStride));
      OverOneMore(RowSet(f, dv, n - 1), p, image, z + dz);
      InSetOneMore(RowSet(f, dv, n - 1), p, image, z + dz, bins, b);
      P.OneMorePixel(PlaneRow(slab, dz, dv), n - 1);
      OneMoreInBin(PlaneRow(slab, dz, dv), n - 1, bins, b);
    }
  }

  lemma RowInSlab(slab: Slab, f: SlabFootprint, image: Image, z: nat)
    requires Showing(slab, f, image, z)
    ensures slab.uCount == f.uCount > 0 && slab.vCount == f.vCount > 0
  {}

  lemma OneMoreInBin(row: seq<Double>, n: nat, bins: Bins, b: nat)
    requires bins.Valid() && n < |row|
    ensures InBin(row[..n + 1], bins, b) == InBin(row[..n], bins, b) + if BinOf(bins, row[n]) == b then 1 else 0
  {
    assert row[..n + 1][..n] == row[..n];
  }

  lemma NoneOfRow(f: SlabFootprint, dv: nat, image: Image, channel: nat, bins: Bins, b: nat)
    requires bins.Valid()
    ensures RowSet(f, dv, 0) == {} == RowsSet(f, 0) && P.Tally([]) == Over({}, image, channel)
    ensures InBin([], bins, b) == 0 == |InSet({}, image, channel, bins, b)|
  {
    OverNone(image, channel);
    assert InSet({}, image, channel, bins, b) == {};
  }

  // ---- A plane ----

  lemma {:induction false} RowsHold(slab: Slab, f: SlabFootprint, image: Image, z: nat, dz: nat, m: nat, bins: Bins,
                                    b: nat)
    requires Showing(slab, f, image, z) && Entire(slab) && dz < slab.channelCount && m <= slab.vCount
    requires f.uStride > 0 && f.vStride > 0 && bins.Valid()
    ensures P.Tally(PlaneRows(slab, dz, 0, m)) == Over(RowsSet(f, m), image, z + dz)
    ensures InBin(PlaneRows(slab, dz, 0, m), bins, b) == |InSet(RowsSet(f, m), image, z + dz, bins, b)|
  {
    hide *;
    if m == 0 {
      NoneOfRow(f, 0, image, z + dz, bins, b);
      NoPlaneRows(slab, dz, 0);
    } else {
      RowInSlab(slab, f, image, z);
      RowsHold(slab, f, image, z, dz, m - 1, bins, b);
      RowHolds(slab, f, image, z, dz, m - 1, slab.uCount, bins, b);
      assert PlaneRow(slab, dz, m - 1)[..slab.uCount] == PlaneRow(slab, dz, m - 1);
      PlaneRowsStep(slab, dz, 0, m - 1);
      P.TallyJoins(PlaneRows(slab, dz, 0, m - 1), PlaneRow(slab, dz, m - 1));
      InBinJoins(PlaneRows(slab, dz, 0, m - 1), PlaneRow(slab, dz, m - 1), bins, b);
      OneMoreRowOf(f, m - 1);
      OverUnion(RowsSet(f, m - 1), RowSet(f, m - 1, f.uCount), image, z + dz);
      InSetUnion(RowsSet(f, m - 1), RowSet(f, m - 1, f.uCount), image, z + dz, bins, b);
    }
  }

  // One plane of a read is the image over its footprint, each pixel once.
  lemma PlaneHolds(slab: Slab, f: SlabFootprint, image: Image, z: nat, dz: nat, bins: Bins, b: nat)
    requires Showing(slab, f, image, z) && Entire(slab) && dz < slab.channelCount
    requires f.uStride > 0 && f.vStride > 0 && bins.Valid()
    ensures P.Tally(PlaneRows(slab, dz, 0, slab.vCount)) == Over(Footing(f), image, z + dz)
    ensures InBin(PlaneRows(slab, dz, 0, slab.vCount), bins, b) == |InSet(Footing(f), image, z + dz, bins, b)|
  {
    RowsHold(slab, f, image, z, dz, slab.vCount, bins, b);
    hide P.Tally, InBin, InSet, Over, PlaneRows, Along;
    assert RowsSet(f, f.vCount) == Footing(f);
  }

  // ---- A read ----

  // Some channels of the image over a set of pixels, together.
  ghost function OverChannels(s: set<At>, image: Image, first: nat, n: nat): Totals {
    if n == 0 then Nothing else OverChannels(s, image, first, n - 1).Plus(Over(s, image, first + n - 1))
  }

  // The rows of the first n planes of a read.
  function RowsOf(slab: Slab, n: nat): nat { n * slab.vCount }

  lemma RowsAscend(slab: Slab, n: nat)
    requires n <= slab.channelCount
    ensures RowsOf(slab, n) <= RowsOf(slab, slab.channelCount) == slab.channelCount * slab.vCount
    ensures RowsOf(slab, 0) == 0
    ensures n > 0 ==> RowsOf(slab, n - 1) <= RowsOf(slab, n)
  {
    B.MulMono(n, slab.channelCount, slab.vCount);
    if n > 0 { B.MulMono(n - 1, n, slab.vCount); }
  }

  lemma {:induction false} ReadHolds(slab: Slab, f: SlabFootprint, image: Image, z: nat, n: nat)
    requires Showing(slab, f, image, z) && Entire(slab) && n <= slab.channelCount && f.uStride > 0 && f.vStride > 0
    ensures RowsOf(slab, n) <= RowsOf(slab, slab.channelCount) && P.Readable(slab, RowsOf(slab, slab.channelCount))
    ensures P.Tally(P.RowsPixels(slab, RowsOf(slab, slab.channelCount), 0, RowsOf(slab, n)))
         == OverChannels(Footing(f), image, z, n)
  {
    hide *;
    RowsAscend(slab, n);
    WholeMeans(slab);
    if n == 0 {
      P.NoRows(slab, RowsOf(slab, slab.channelCount), 0, []);
      P.NothingTallied();
      NoChannelsOver(Footing(f), image, z);
    } else {
      ReadHolds(slab, f, image, z, n - 1);
      PlaneHolds(slab, f, image, z, n - 1, UNIT_BINS, 0);
      OnePlaneMore(slab, n);
      OneMoreChannelOver(Footing(f), image, z, n);
    }
  }

  lemma OnePlaneMore(slab: Slab, n: nat)
    requires Entire(slab) && 0 < n <= slab.channelCount && P.Readable(slab, RowsOf(slab, slab.channelCount))
    requires RowsOf(slab, n - 1) <= RowsOf(slab, n) <= RowsOf(slab, slab.channelCount)
    ensures P.Tally(P.RowsPixels(slab, RowsOf(slab, slab.channelCount), 0, RowsOf(slab, n)))
         == P.Tally(P.RowsPixels(slab, RowsOf(slab, slab.channelCount), 0, RowsOf(slab, n - 1)))
            .Plus(P.Tally(PlaneRows(slab, n - 1, 0, slab.vCount)))
  {
    hide *;
    var rows := RowsOf(slab, slab.channelCount);
    P.RowsJoin(slab, rows, 0, RowsOf(slab, n - 1), RowsOf(slab, n));
    P.TallyJoins(P.RowsPixels(slab, rows, 0, RowsOf(slab, n - 1)),
                 P.RowsPixels(slab, rows, RowsOf(slab, n - 1), RowsOf(slab, n)));
    PlaneIsRows(slab, n - 1);
  }

  const UNIT_BINS := Bins(0.0, 1.0, 1)

  lemma WholeMeans(slab: Slab)
    requires Entire(slab)
    ensures P.Readable(slab, RowsOf(slab, slab.channelCount)) && slab.vCount > 0 && UNIT_BINS.Valid()
  {}

  lemma NoChannelsOver(s: set<At>, image: Image, first: nat)
    ensures OverChannels(s, image, first, 0) == Nothing
  {}

  lemma OneMoreChannelOver(s: set<At>, image: Image, first: nat, n: nat)
    requires n > 0
    ensures OverChannels(s, image, first, n)
         == OverChannels(s, image, first, n - 1).Plus(Over(s, image, first + (n - 1)))
  {}

  lemma PlaneIsRows(slab: Slab, offset: nat)
    requires Entire(slab) && offset < slab.channelCount && P.Readable(slab, RowsOf(slab, slab.channelCount))
    requires RowsOf(slab, offset) <= RowsOf(slab, offset + 1) <= RowsOf(slab, slab.channelCount)
    ensures PlaneRows(slab, offset, 0, slab.vCount)
         == P.RowsPixels(slab, RowsOf(slab, slab.channelCount), RowsOf(slab, offset), RowsOf(slab, offset + 1))
  {
    NextPlane(slab, offset);
  }
}
