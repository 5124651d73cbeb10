// What the answer of a cube histogram is shared out from, and how near each of its edges the answer is to the
// pixels themselves: Collect, src/reduce/provisional_histograms.h.

module Sharings {
  import opened Aggregation
  import opened GrowingHistograms
  import opened ProvisionalHistograms
  import opened PixelsBelow

  // One provisional histogram when the answer is made: its counts over [lower, lower + width * bins), and the
  // values it was given.
  datatype Provisional = Provisional(counts: seq<nat>, lower: real, width: real, added: seq<real>)

  // Each bin holds exactly the values between its edges, and no value is outside.
  ghost predicate Exact(p: Provisional) {
    && p.width > 0.0
    && Bins(p.counts, p.lower, p.width, p.added)
    && AllWithin(p.added, p.lower, Edge(p.lower, p.width, |p.counts|))
  }

  // How an answer came about: what each provisional histogram put in each bin, how each of its bins was split
  // for that, and the histograms themselves.
  datatype Sharing = Sharing(parts: seq<seq<nat>>, splits: seq<seq<seq<nat>>>, provisionals: seq<Provisional>)

  const NO_SHARING := Sharing([], [], [])

  ghost function ValuesOf(provisionals: seq<Provisional>): (values: seq<seq<real>>)
    ensures |values| == |provisionals| && forall i :: 0 <= i < |values| ==> values[i] == provisionals[i].added
  {
    seq(|provisionals|, i requires 0 <= i < |provisionals| => provisionals[i].added)
  }

  // The answer shares out the provisional histograms: each is exact, each is put on the grid between the
  // extremes, and each of the answer's bins is what they all put there.
  ghost predicate SharesOut(counts: seq<nat>, totals: CubeTotals, sharing: Sharing) {
    && |counts| > 0 && SumOfParts(counts, sharing.parts)
    && (forall i :: 0 <= i < |sharing.provisionals| ==> Exact(sharing.provisionals[i]))
    && (totals.numPixels > 0 ==>
          && |sharing.parts| == |sharing.splits| == |sharing.provisionals|
          && forall i :: 0 <= i < |sharing.provisionals| ==>
               Shared(sharing.parts[i], sharing.splits[i], sharing.provisionals[i], |counts|, totals))
  }

  ghost predicate Shared(part: seq<nat>, split: seq<seq<nat>>, p: Provisional, bins: nat, totals: CubeTotals)
    requires bins > 0
  {
    p.width > 0.0 && OnGrid(part, split, p.counts, p.lower, p.width, bins, RealOr(totals.min), RealOr(totals.max))
  }

  ghost method SharingOf(accumulators: seq<Accumulator>, counts: seq<nat>, totals: CubeTotals,
                         parts: seq<seq<nat>>, splits: seq<seq<seq<nat>>>)
    returns (sharing: Sharing)
    requires AllValid(accumulators) && |counts| > 0 && SumOfParts(counts, parts)
    requires totals.numPixels > 0 ==>
               AllOnGrid(parts, splits, accumulators, |accumulators|, |counts|, RealOr(totals.min), RealOr(totals.max))
    ensures SharesOut(counts, totals, sharing)
    ensures |sharing.provisionals| == |accumulators|
    ensures forall i :: 0 <= i < |accumulators| ==> sharing.provisionals[i].added == Finites(accumulators[i].taken)
  {
    hide OnGrid, Totalled, Exact, SumOfParts, RealOr, Finites;
    var provisionals: seq<Provisional> := [];
    for i := 0 to |accumulators|
      invariant |provisionals| == i
      invariant forall j :: 0 <= j < i ==>
                  && provisionals[j].counts == accumulators[j].growing.counts
                  && provisionals[j].lower == accumulators[j].growing.lower
                  && provisionals[j].width == accumulators[j].growing.width
                  && provisionals[j].added == Finites(accumulators[j].taken) && Exact(provisionals[j])
    {
      AllValidMeans(accumulators);
      AccumulatorMeans(accumulators[i]);
      var growing := accumulators[i].growing;
      GrowingIsExact(growing);
      provisionals := provisionals + [Provisional(growing.counts, growing.lower, growing.width, growing.added)];
    }
    sharing := Sharing(parts, splits, provisionals);
  }

  lemma GrowingIsExact(growing: GrowingHistogram)
    requires growing.Valid()
    ensures Exact(Provisional(growing.counts, growing.lower, growing.width, growing.added))
  {
    if !growing.seeded {
      forall i | 0 <= i < |growing.counts|
        ensures CountIn([], Edge(growing.lower, growing.width, i), Edge(growing.lower, growing.width, i + 1)) == 0
      {}
    }
    hide Edge;
  }

  // ---- One provisional bin, below an edge of the answer ----

  ghost predicate Near(x: nat, y: nat, error: nat) {
    x <= y + error && y <= x + error
  }

  lemma PrefixAtMost(part: seq<nat>, k: nat)
    requires k <= |part|
    ensures Sum(part[..k]) <= Sum(part)
    ensures (forall b :: k <= b < |part| ==> part[b] == 0) ==> Sum(part[..k]) == Sum(part)
  {
    assert part == part[..k] + part[k..];
    SumJoins(part[..k], part[k..]);
    if forall b :: k <= b < |part| ==> part[b] == 0 { SumZeros(part[k..]); }
  }

  // Its pixels are all counted below an edge it ends by, none below one it begins at or past.
  lemma SplitBelow(part: seq<nat>, count: nat, from: real, to: real, lower: real, width: real, bins: nat, k: nat)
    requires from < to && width > 0.0 && 0 < k < bins && FairlySplit(part, count, from, to, lower, width, bins)
    ensures |part| == bins && Sum(part[..k]) <= count
    ensures to <= Edge(lower, width, k) ==> Sum(part[..k]) == count
    ensures from >= Edge(lower, width, k) ==> Sum(part[..k]) == 0
  {
    var first, last := BinAt(from, lower, width, bins), BinAt(to, lower, width, bins);
    PrefixAtMost(part, k);
    BinAgainstEdge(from, lower, width, bins, k);
    BinAgainstEdge(to, lower, width, bins, k);
    if to <= Edge(lower, width, k) {
      if last == k { NoneOfTheLast(part, count, from, to, lower, width, bins, k); }
      hide Sum, BinAt, Apportioned, Overlap;
      forall b | k <= b < |part| ensures part[b] == 0 {}
    }
    if from >= Edge(lower, width, k) {
      hide Sum, BinAt, Apportioned, Overlap;
      SumZeros(part[..k]);
    }
  }

  lemma BinAgainstEdge(x: real, lower: real, width: real, bins: nat, k: nat)
    requires width > 0.0 && 0 < k < bins
    ensures x >= Edge(lower, width, k) ==> BinAt(x, lower, width, bins) >= k
    ensures x < Edge(lower, width, k) ==> BinAt(x, lower, width, bins) < k
    ensures x <= Edge(lower, width, k) ==> BinAt(x, lower, width, bins) <= k
    ensures x <= Edge(lower, width, k) && BinAt(x, lower, width, bins) == k ==> x == Edge(lower, width, k)
  {
    var at := ((x - lower) / width).Floor;
    BinIs(lower, width, x, at);
    EdgesAscend(lower, width, at, k);
    EdgesAscend(lower, width, k, at);
    EdgesAscend(lower, width, at + 1, k);
    EdgesAscend(lower, width, k, at + 1);
    hide Edge;
  }

  // A bin that ends at the very edge has no share of the target bin that begins there.
  lemma NoneOfTheLast(part: seq<nat>, count: nat, from: real, to: real, lower: real, width: real, bins: nat, k: nat)
    requires from < to == Edge(lower, width, k) && width > 0.0 && 0 < k < bins
    requires BinAt(to, lower, width, bins) == k && BinAt(from, lower, width, bins) < k
    requires FairlySplit(part, count, from, to, lower, width, bins)
    ensures part[k] == 0
  {
    var first := BinAt(from, lower, width, bins);
    var overlaps := Overlaps(from, to, lower, width, first, k - first + 1);
    var shares := Shares(count, overlaps, Total(overlaps));
    NoOverlap(from, to, lower, width, k);
    assert overlaps[k - first] == 0.0;
    NoShare(count, overlaps, Total(overlaps), k - first);
    hide BinAt, Overlap, Total, Aggregation.Share, Sum;
    assert part[first..k + 1][k - first] == part[k];
    assert Rounded(part[first..k + 1][k - first], shares[k - first]);
  }

  lemma NoOverlap(from: real, to: real, lower: real, width: real, k: int)
    requires from < to == Edge(lower, width, k)
    ensures Overlap(from, to, lower, width, k) == 0.0
  {
    hide Edge;
  }

  lemma NoShare(count: nat, overlaps: seq<real>, covered: real, k: nat)
    requires k < |overlaps| && covered > 0.0 && overlaps[k] == 0.0
    ensures Aggregation.Share(count, overlaps, covered, k) == 0.0
  {}

  // ---- One provisional histogram ----

  // What some lists of counts come to over their first k bins.
  ghost function Prefixes(parts: seq<seq<nat>>, k: nat): nat
    requires forall i :: 0 <= i < |parts| ==> k <= |parts[i]|
  {
    if parts == [] then 0 else Prefixes(parts[..|parts| - 1], k) + Sum(parts[|parts| - 1][..k])
  }

  lemma {:induction false} PrefixesAddUp(parts: seq<seq<nat>>, out: seq<nat>, k: nat)
    requires k <= |out| && forall i :: 0 <= i < |parts| ==> |parts[i]| == |out|
    requires forall b: nat :: b < |out| ==> out[b] == Column(parts, b)
    ensures Sum(out[..k]) == Prefixes(parts, k)
    decreases |parts|
  {
    hide Sum;
    if parts == [] {
      SumZeros(out[..k]);
    } else {
      var l := |parts| - 1;
      var before: seq<nat> := seq(|out|, b requires 0 <= b < |out| => Column(parts[..l], b));
      PrefixesAddUp(parts[..l], before, k);
      SumsAdd(before[..k], parts[l][..k], out[..k]);
    }
  }

  // The counts of the bins that a value lies strictly inside.
  ghost function Straddling(counts: seq<nat>, lower: real, width: real, e: real): nat {
    if counts == [] then 0
    else
      var l := |counts| - 1;
      Straddling(counts[..l], lower, width, e)
      + if Edge(lower, width, l) < e < Edge(lower, width, l + 1) then counts[l] else 0
  }

  lemma OneMoreStraddling(counts: seq<nat>, lower: real, width: real, e: real, j: nat)
    requires j < |counts|
    ensures Straddling(counts[..j + 1], lower, width, e)
         == Straddling(counts[..j], lower, width, e)
            + if Edge(lower, width, j) < e < Edge(lower, width, j + 1) then counts[j] else 0
  {
    assert counts[..j + 1][..j] == counts[..j];
  }

  lemma OneMorePrefix(parts: seq<seq<nat>>, k: nat, j: nat)
    requires j < |parts| && forall i :: 0 <= i < |parts| ==> k <= |parts[i]|
    ensures Prefixes(parts[..j + 1], k) == Prefixes(parts[..j], k) + Sum(parts[j][..k])
  {
    assert parts[..j + 1][..j] == parts[..j];
  }

  // How many of the values below e lie in one bin.
  lemma BelowInBin(p: Provisional, e: real, j: nat)
    requires Exact(p) && j < |p.counts|
    ensures var from, to := Edge(p.lower, p.width, j), Edge(p.lower, p.width, j + 1);
            var more := CountBelow(p.added, Smaller(e, to)) - CountBelow(p.added, Smaller(e, from));
            && from < to && 0 <= more <= p.counts[j]
            && (to <= e ==> more == p.counts[j]) && (e <= from ==> more == 0)
  {
    var from, to := Edge(p.lower, p.width, j), Edge(p.lower, p.width, j + 1);
    EdgesAscend(p.lower, p.width, j, j + 1);
    assert p.counts[j] == CountIn(p.added, from, to);
    CountBetween(p.added, from, to);
    hide Edge, CountBelow, CountIn;
    if from < e < to {
      CountBetween(p.added, from, e);
      CountBetween(p.added, e, to);
    }
  }

  lemma {:induction false} NearSoFar(p: Provisional, splits: seq<seq<nat>>, lower: real, width: real, bins: nat, k: nat,
                                     j: nat)
    requires Exact(p) && width > 0.0 && 0 < k < bins && |splits| == |p.counts| && j <= |p.counts|
    requires forall i :: 0 <= i < |splits| ==> IsSplit(splits[i], p, i, lower, width, bins)
    ensures forall i :: 0 <= i < |splits| ==> k <= |splits[i]|
    ensures Near(Prefixes(splits[..j], k),
                 CountBelow(p.added, Smaller(Edge(lower, width, k), Edge(p.lower, p.width, j))),
                 Straddling(p.counts[..j], p.lower, p.width, Edge(lower, width, k)))
    decreases j
  {
    hide *;
    EachIsSplit(p, splits, lower, width, bins, k);
    var e := Edge(lower, width, k);
    if j == 0 {
      NoneBelow(p, e);
      NothingYet(splits, p.counts, p.lower, p.width, e, k);
      SameIsNear(0);
    } else {
      NearSoFar(p, splits, lower, width, bins, k, j - 1);
      BelowInBin(p, e, j - 1);
      SplitOfBin(splits[j - 1], p, j - 1, lower, width, bins, k);
      OneMoreStraddling(p.counts, p.lower, p.width, e, j - 1);
      OneMorePrefix(splits, k, j - 1);
      NearerStill(Prefixes(splits[..j - 1], k), CountBelow(p.added, Smaller(e, Edge(p.lower, p.width, j - 1))),
                  Straddling(p.counts[..j - 1], p.lower, p.width, e), Sum(splits[j - 1][..k]),
                  CountBelow(p.added, Smaller(e, Edge(p.lower, p.width, j))), p.counts[j - 1],
                  Edge(p.lower, p.width, j - 1) < e < Edge(p.lower, p.width, j));
    }
  }

  ghost predicate IsSplit(split: seq<nat>, p: Provisional, i: nat, lower: real, width: real, bins: nat)
    requires i < |p.counts| && width > 0.0 && bins > 0
  {
    FairlySplit(split, p.counts[i], Edge(p.lower, p.width, i), Edge(p.lower, p.width, i) + p.width, lower, width, bins)
  }

  lemma EachIsSplit(p: Provisional, splits: seq<seq<nat>>, lower: real, width: real, bins: nat, k: nat)
    requires Exact(p) && width > 0.0 && 0 < k < bins && |splits| == |p.counts|
    requires forall i :: 0 <= i < |splits| ==> IsSplit(splits[i], p, i, lower, width, bins)
    ensures p.width > 0.0 && forall i :: 0 <= i < |splits| ==> k <= |splits[i]|
  {
    forall i | 0 <= i < |splits| ensures k <= |splits[i]| {
      assert IsSplit(splits[i], p, i, lower, width, bins);
    }
  }

  lemma SplitOfBin(split: seq<nat>, p: Provisional, i: nat, lower: real, width: real, bins: nat, k: nat)
    requires i < |p.counts| && p.width > 0.0 && width > 0.0 && 0 < k < bins && IsSplit(split, p, i, lower, width, bins)
    ensures |split| == bins && Sum(split[..k]) <= p.counts[i]
    ensures Edge(p.lower, p.width, i + 1) <= Edge(lower, width, k) ==> Sum(split[..k]) == p.counts[i]
    ensures Edge(p.lower, p.width, i) >= Edge(lower, width, k) ==> Sum(split[..k]) == 0
  {
    assert Edge(p.lower, p.width, i + 1) == Edge(p.lower, p.width, i) + p.width;
    hide Edge, FairlySplit, Sum;
    SplitBelow(split, p.counts[i], Edge(p.lower, p.width, i), Edge(p.lower, p.width, i) + p.width, lower, width, bins,
               k);
  }

  lemma {:induction false} NoneBelowAny(values: seq<real>, e: real)
    requires forall i :: 0 <= i < |values| ==> values[i] >= e
    ensures CountBelow(values, e) == 0
    decreases |values|
  {
    if values != [] { NoneBelowAny(values[..|values| - 1], e); }
  }

  lemma NoneBelow(p: Provisional, e: real)
    requires Exact(p)
    ensures CountBelow(p.added, Smaller(e, Edge(p.lower, p.width, 0))) == 0
  {
    assert Edge(p.lower, p.width, 0) == p.lower;
    hide Bins, CountBelow, Edge;
    NoneBelowAny(p.added, Smaller(e, p.lower));
  }

  lemma {:induction false} AllBelowAny(values: seq<real>, e: real, top: real)
    requires forall i :: 0 <= i < |values| ==> values[i] < top
    ensures CountBelow(values, Smaller(e, top)) == CountBelow(values, e)
    decreases |values|
  {
    if values != [] { AllBelowAny(values[..|values| - 1], e, top); }
  }

  lemma NothingYet(splits: seq<seq<nat>>, counts: seq<nat>, lower: real, width: real, e: real, k: nat)
    ensures Prefixes(splits[..0], k) == 0 && Straddling(counts[..0], lower, width, e) == 0
  {}

  lemma SameIsNear(x: nat)
    ensures Near(x, x, 0)
  {}

  // One bin more: whole on one side of the edge or the other, or else its count is all it can be out by.
  lemma NearerStill(x: nat, y: nat, error: nat, more: nat, y': nat, count: nat, inside: bool)
    requires Near(x, y, error) && more <= count && y <= y' <= y + count
    requires !inside ==> more == y' - y
    ensures Near(x + more, y', error + if inside then count else 0)
  {}

  lemma OneIsNear(part: seq<nat>, split: seq<seq<nat>>, p: Provisional, bins: nat, totals: CubeTotals, k: nat)
    requires 0 < k < bins && Exact(p) && Shared(part, split, p, bins, totals)
    requires RealOr(totals.min) < RealOr(totals.max)
    ensures k <= |part|
    ensures var e := EdgeOf(totals, bins, k);
            Near(Sum(part[..k]), CountBelow(p.added, e), Straddling(p.counts, p.lower, p.width, e))
  {
    var lower, width, e := RealOr(totals.min), WidthOf(totals, bins), EdgeOf(totals, bins, k);
    SharedMeans(part, split, p, bins, totals);
    hide *;
    PrefixesAddUp(split, part, k);
    NearSoFar(p, split, lower, width, bins, k, |p.counts|);
    assert split[..|p.counts|] == split && p.counts[..|p.counts|] == p.counts;
    NoneAbove(p, e);
    EdgeIs(totals, bins, k);
  }

  lemma NoneAbove(p: Provisional, e: real)
    requires Exact(p)
    ensures CountBelow(p.added, Smaller(e, Edge(p.lower, p.width, |p.counts|))) == CountBelow(p.added, e)
  {
    hide Bins, CountBelow, Edge;
    AllBelowAny(p.added, e, Edge(p.lower, p.width, |p.counts|));
  }

  // How wide the answer's bins are, and where they begin.
  function WidthOf(totals: CubeTotals, bins: nat): real
    requires bins > 0
  {
    (RealOr(totals.max) - RealOr(totals.min)) / bins as real
  }

  function EdgeOf(totals: CubeTotals, bins: nat, k: nat): real
    requires bins > 0
  {
    Edge(RealOr(totals.min), WidthOf(totals, bins), k)
  }

  lemma EdgeIs(totals: CubeTotals, bins: nat, k: nat)
    requires bins > 0
    ensures EdgeOf(totals, bins, k) == Edge(RealOr(totals.min), WidthOf(totals, bins), k)
  {}

  lemma SharedMeans(part: seq<nat>, split: seq<seq<nat>>, p: Provisional, bins: nat, totals: CubeTotals)
    requires bins > 0 && Shared(part, split, p, bins, totals) && RealOr(totals.min) < RealOr(totals.max)
    ensures p.width > 0.0 && WidthOf(totals, bins) > 0.0 && |part| == bins && |split| == |p.counts|
    ensures forall i :: 0 <= i < |split| ==>
              |split[i]| == bins && IsSplit(split[i], p, i, RealOr(totals.min), WidthOf(totals, bins), bins)
    ensures forall b: nat :: b < bins ==> part[b] == Column(split, b)
  {
    hide FairlySplit, Edge, RealOr, Sum;
  }

  // ---- All of them ----

  ghost function StraddlingAll(provisionals: seq<Provisional>, e: real): nat {
    if provisionals == [] then 0
    else
      var p := provisionals[|provisionals| - 1];
      StraddlingAll(provisionals[..|provisionals| - 1], e) + Straddling(p.counts, p.lower, p.width, e)
  }

  // At each inner edge of the answer, what it has below is what the histograms were given below, but for no
  // more than the provisional bins that lie across the edge.
  lemma NearAtEdges(counts: seq<nat>, totals: CubeTotals, sharing: Sharing, k: nat)
    requires SharesOut(counts, totals, sharing) && totals.numPixels > 0 && RealOr(totals.min) < RealOr(totals.max)
    requires 0 < k < |counts|
    ensures var e := EdgeOf(totals, |counts|, k);
            Near(Sum(counts[..k]), BelowAll(ValuesOf(sharing.provisionals), e),
                 StraddlingAll(sharing.provisionals, e))
  {
    var n := |sharing.parts|;
    assert forall i :: 0 <= i < n ==> |sharing.parts[i]| == |counts|;
    hide Exact, Shared, RealOr;
    PrefixesAddUp(sharing.parts, counts, k);
    AllAreNear(sharing.parts, sharing.splits, sharing.provisionals, |counts|, totals, k);
  }

  lemma {:induction false} AllAreNear(parts: seq<seq<nat>>, splits: seq<seq<seq<nat>>>, provisionals: seq<Provisional>,
                                      bins: nat, totals: CubeTotals, k: nat)
    requires 0 < k < bins && RealOr(totals.min) < RealOr(totals.max) && |parts| == |splits| == |provisionals|
    requires forall i :: 0 <= i < |parts| ==> k <= |parts[i]|
    requires forall i :: 0 <= i < |parts| ==>
               Exact(provisionals[i]) && Shared(parts[i], splits[i], provisionals[i], bins, totals)
    ensures var e := EdgeOf(totals, bins, k);
            Near(Prefixes(parts, k), BelowAll(ValuesOf(provisionals), e), StraddlingAll(provisionals, e))
    decreases |parts|
  {
    hide Exact, Shared, RealOr, EdgeOf, Straddling, CountBelow, Sum;
    if parts != [] {
      var l := |parts| - 1;
      AllAreNear(parts[..l], splits[..l], provisionals[..l], bins, totals, k);
      OneIsNear(parts[l], splits[l], provisionals[l], bins, totals, k);
      assert ValuesOf(provisionals)[..l] == ValuesOf(provisionals[..l]);
    }
  }
}
