// A provisional histogram put onto the range a caller wants: GrowingHistogram::Aggregate,
// src/reduce/growing_histogram.h, over exact reals.

module Aggregation {
  import opened Reals
  import opened GrowingHistograms

  // ---- Sums of reals ----

  function Total(s: seq<real>): real {
    if s == [] then 0.0 else Total(s[..|s| - 1]) + s[|s| - 1]
  }

  // What is positive in a list, added up.
  ghost function PositiveTotal(s: seq<real>): real {
    if s == [] then 0.0 else PositiveTotal(s[..|s| - 1]) + if s[|s| - 1] > 0.0 then s[|s| - 1] else 0.0
  }

  lemma {:induction false} NothingPositive(s: seq<real>)
    requires forall k :: 0 <= k < |s| ==> s[k] <= 0.0
    ensures PositiveTotal(s) == 0.0
    decreases |s|
  {
    if s != [] { NothingPositive(s[..|s| - 1]); }
  }

  lemma {:induction false} AllPositive(s: seq<real>)
    requires forall k :: 0 <= k < |s| ==> s[k] >= 0.0
    ensures PositiveTotal(s) == Total(s)
    decreases |s|
  {
    if s != [] { AllPositive(s[..|s| - 1]); }
  }

  lemma {:induction false} OneTaken(s: seq<real>, k: nat)
    requires k < |s| && s[k] > 0.0
    ensures PositiveTotal(s[k := -1.0]) == PositiveTotal(s) - s[k]
    decreases |s|
  {
    var l := |s| - 1;
    if k == l {
      assert s[k := -1.0][..l] == s[..l];
    } else {
      assert s[k := -1.0][..l] == s[..l][k := -1.0];
      OneTaken(s[..l], k);
    }
  }

  lemma {:induction false} TotalAtLeast(s: seq<real>, k: nat)
    requires k < |s| && forall i :: 0 <= i < |s| ==> s[i] >= 0.0
    ensures Total(s) >= s[k] && Total(s[..k]) >= 0.0
    decreases |s|
  {
    var l := |s| - 1;
    TotalPositive(s[..l]);
    TotalPositive(s[..k]);
    if k < l { TotalAtLeast(s[..l], k); }
  }

  lemma {:induction false} TotalPositive(s: seq<real>)
    requires forall i :: 0 <= i < |s| ==> s[i] >= 0.0
    ensures Total(s) >= 0.0
    decreases |s|
  {
    if s != [] { TotalPositive(s[..|s| - 1]); }
  }

  // ---- What one bin's share is ----

  function Larger(a: real, b: real): real { if a < b then b else a }
  function Smaller(a: real, b: real): real { if b < a then b else a }

  // How much of [from, to) the target bin b covers.
  function Overlap(from: real, to: real, lower: real, width: real, b: int): (piece: real)
    ensures piece >= 0.0
  {
    var low := Larger(from, Edge(lower, width, b));
    var high := Smaller(to, Edge(lower, width, b + 1));
    if high > low then high - low else 0.0
  }

  function Overlaps(from: real, to: real, lower: real, width: real, first: int, n: nat): (s: seq<real>)
    ensures |s| == n && forall k :: 0 <= k < n ==> s[k] == Overlap(from, to, lower, width, first + k)
    ensures forall k :: 0 <= k < n ==> s[k] >= 0.0
  {
    seq(n, k requires 0 <= k < n => Overlap(from, to, lower, width, first + k))
  }

  // The target bin a point falls in, or the one at the end it is past.
  function BinAt(x: real, lower: real, width: real, bins: nat): (b: nat)
    requires width > 0.0 && bins > 0
    ensures b < bins
  {
    var at := ((x - lower) / width).Floor;
    if at < 0 then 0 else if at >= bins then bins - 1 else at
  }

  // A straddling bin is covered: its first target bin takes some of it.
  lemma StraddlersAreCovered(from: real, to: real, lower: real, width: real, bins: nat)
    requires from < to && width > 0.0 && bins > 0
    requires BinAt(from, lower, width, bins) < BinAt(to, lower, width, bins)
    ensures Overlap(from, to, lower, width, BinAt(from, lower, width, bins)) > 0.0
  {
    var f, l := ((from - lower) / width).Floor, ((to - lower) / width).Floor;
    BinIs(lower, width, from, f);
    BinIs(lower, width, to, l);
    var b := BinAt(from, lower, width, bins);
    EdgesAscend(lower, width, b, b + 1);
    EdgesAscend(lower, width, f + 1, b + 1);
    EdgesAscend(lower, width, b + 1, f + 1);
    EdgesAscend(lower, width, b + 1, l);
    EdgesAscend(lower, width, l, b + 1);
    hide Edge;
  }

  // What the target bin k-th from the first is due of `count` pixels spread evenly over [from, to).
  function Share(count: nat, overlaps: seq<real>, covered: real, k: nat): real
    requires k < |overlaps| && covered > 0.0
  {
    count as real * (overlaps[k] / covered)
  }

  function Shares(count: nat, overlaps: seq<real>, covered: real): (s: seq<real>)
    requires covered > 0.0
    ensures |s| == |overlaps| && forall k :: 0 <= k < |s| ==> s[k] == Share(count, overlaps, covered, k)
  {
    seq(|overlaps|, k requires 0 <= k < |overlaps| => Share(count, overlaps, covered, k))
  }

  lemma {:induction false} SharesAddUp(count: nat, overlaps: seq<real>, covered: real)
    requires covered > 0.0
    ensures Total(Shares(count, overlaps, covered)) == count as real * (Total(overlaps) / covered)
    decreases |overlaps|
  {
    if overlaps != [] {
      var l := |overlaps| - 1;
      SharesAddUp(count, overlaps[..l], covered);
      forall k | 0 <= k < l ensures Shares(count, overlaps, covered)[k] == Shares(count, overlaps[..l], covered)[k] {
        assert overlaps[..l][k] == overlaps[k];
      }
      assert Shares(count, overlaps, covered)[..l] == Shares(count, overlaps[..l], covered);
      Spread(count as real, Total(overlaps[..l]), overlaps[l], covered);
      hide Share;
      assert Shares(count, overlaps, covered)[l] == Share(count, overlaps, covered, l);
      ShareIs(count, overlaps, covered, l);
    }
  }

  lemma ShareIs(count: nat, overlaps: seq<real>, covered: real, k: nat)
    requires k < |overlaps| && covered > 0.0
    ensures Share(count, overlaps, covered, k) == count as real * (overlaps[k] / covered)
  {}

  lemma Spread(c: real, x: real, y: real, z: real)
    requires z > 0.0
    ensures c * ((x + y) / z) == c * (x / z) + c * (y / z)
  {
    Quotient(x / z, z, x);
    Quotient(y / z, z, y);
    Quotient((x + y) / z, z, x + y);
    assert z * (x / z + y / z) == x + y;
    Quotient(x / z + y / z, z, x + y);
  }

  lemma WholeOfIt(c: real, z: real)
    requires z > 0.0
    ensures c * (z / z) == c
  {
    Quotient(1.0, z, z);
  }

  lemma SharesAtLeastZero(count: nat, overlap: real, covered: real)
    requires covered > 0.0 && overlap >= 0.0
    ensures count as real * (overlap / covered) >= 0.0
  {
    Quotient(overlap / covered, covered, overlap);
    Scale(covered, overlap / covered, 0.0);
  }

  // The floor or the ceiling of a share.
  ghost predicate Rounded(part: nat, share: real) {
    part == share.Floor || (part == share.Floor + 1 && share.Floor as real < share)
  }

  // A part that came out above its share, and what a share has beyond its whole part.
  ghost predicate RoundedUp(part: nat, share: real) {
    part as real > share
  }

  function Remainder(share: real): real {
    share - share.Floor as real
  }

  // Which of two shares a leftover goes to first: the larger remainder, or the earlier of equal ones.
  ghost predicate Ahead(shares: seq<real>, j: nat, k: nat)
    requires j < |shares| && k < |shares|
  {
    Remainder(shares[j]) > Remainder(shares[k]) || (Remainder(shares[j]) == Remainder(shares[k]) && j < k)
  }

  // Each part is its share's floor or ceiling, and those rounded up are ahead of those that are not.
  ghost predicate Apportioned(parts: seq<nat>, shares: seq<real>) {
    && |parts| == |shares|
    && (forall k: nat :: k < |parts| ==> Rounded(parts[k], shares[k]))
    && forall j: nat, k: nat :: j < |parts| && k < |parts| ==>
         (RoundedUp(parts[j], shares[j]) && !RoundedUp(parts[k], shares[k]) ==> Ahead(shares, j, k))
  }

  // Parts of one total by the same shares are the same parts.
  lemma OneApportionment(p: seq<nat>, q: seq<nat>, shares: seq<real>)
    requires Apportioned(p, shares) && Apportioned(q, shares) && Sum(p) == Sum(q)
    ensures p == q
  {
    if p != q {
      var k: nat :| k < |p| && p[k] != q[k];
      if p[k] > q[k] { NoOther(p, q, shares, k); } else { NoOther(q, p, shares, k); }
    }
  }

  lemma NoOther(p: seq<nat>, q: seq<nat>, shares: seq<real>, k: nat)
    requires Apportioned(p, shares) && Apportioned(q, shares) && k < |p| && p[k] > q[k]
    ensures Sum(p) != Sum(q)
  {
    if j: nat :| j < |p| && p[j] < q[j] {
      UpAndDown(p[k], q[k], shares[k]);
      UpAndDown(q[j], p[j], shares[j]);
      hide Rounded, RoundedUp, Remainder;
      assert Ahead(shares, k, j) && Ahead(shares, j, k);
    } else {
      hide Apportioned;
      SumLess(q, p, k);
    }
  }

  lemma UpAndDown(high: nat, low: nat, share: real)
    requires Rounded(high, share) && Rounded(low, share) && high > low
    ensures RoundedUp(high, share) && !RoundedUp(low, share)
  {}

  lemma {:induction false} SumLess(a: seq<nat>, b: seq<nat>, k: nat)
    requires |a| == |b| && k < |a| && a[k] < b[k] && forall j :: 0 <= j < |a| ==> a[j] <= b[j]
    ensures Sum(a) < Sum(b)
    decreases |a|
  {
    var l := |a| - 1;
    if k < l { SumLess(a[..l], b[..l], k); } else { SumAtMost(a[..l], b[..l]); }
  }

  lemma {:induction false} SumAtMost(a: seq<nat>, b: seq<nat>)
    requires |a| == |b| && forall j :: 0 <= j < |a| ==> a[j] <= b[j]
    ensures Sum(a) <= Sum(b)
    decreases |a|
  {
    if a != [] { SumAtMost(a[..|a| - 1], b[..|b| - 1]); }
  }

  // How one provisional bin's pixels came out: all of them, in the target bins it overlaps and no other, and
  // between several by their proportional shares, the leftovers to the largest remainders.
  ghost predicate FairlySplit(part: seq<nat>, count: nat, from: real, to: real, lower: real, width: real, bins: nat)
    requires width > 0.0 && bins > 0
  {
    var first, last := BinAt(from, lower, width, bins), BinAt(to, lower, width, bins);
    && |part| == bins && Sum(part) == count
    && (forall b :: 0 <= b < bins && !(first <= b <= last) ==> part[b] == 0)
    && (first < last ==>
          var overlaps := Overlaps(from, to, lower, width, first, last - first + 1);
          && Total(overlaps) > 0.0
          && Apportioned(part[first..last + 1], Shares(count, overlaps, Total(overlaps))))
  }

  // There is one fair split.
  lemma OneFairSplit(p: seq<nat>, q: seq<nat>, count: nat, from: real, to: real, lower: real, width: real, bins: nat)
    requires from < to && width > 0.0 && bins > 0
    requires FairlySplit(p, count, from, to, lower, width, bins)
    requires FairlySplit(q, count, from, to, lower, width, bins)
    ensures p == q
  {
    var first, last := BinAt(from, lower, width, bins), BinAt(to, lower, width, bins);
    BinsAscend(from, to, lower, width, bins);
    Within(p, count, first, last);
    Within(q, count, first, last);
    SameInside(p, q, first, last);
    hide Sum, BinAt, Apportioned, Overlap, Total, Share;
    if first < last {
      var overlaps := Overlaps(from, to, lower, width, first, last - first + 1);
      OneApportionment(p[first..last + 1], q[first..last + 1], Shares(count, overlaps, Total(overlaps)));
    }
  }

  lemma SameInside(p: seq<nat>, q: seq<nat>, first: nat, last: nat)
    requires |p| == |q| && first <= last < |p|
    requires forall b :: 0 <= b < |p| && !(first <= b <= last) ==> p[b] == q[b] == 0
    ensures p[first..last + 1] == q[first..last + 1] ==> p == q
  {
    if p[first..last + 1] == q[first..last + 1] {
      forall b | 0 <= b < |p| ensures p[b] == q[b] {
        if first <= b <= last {
          assert p[b] == p[first..last + 1][b - first] && q[b] == q[first..last + 1][b - first];
        }
      }
    }
  }

  // What is nowhere but in [first, last] adds up to what is there.
  lemma Within(part: seq<nat>, count: nat, first: nat, last: nat)
    requires first <= last < |part| && Sum(part) == count
    requires forall b :: 0 <= b < |part| && !(first <= b <= last) ==> part[b] == 0
    ensures Sum(part[first..last + 1]) == count
    ensures first == last ==> part[first..last + 1] == [count]
  {
    Thirds(part, first, last + 1);
    SumZeros(part[..first]);
    SumZeros(part[last + 1..]);
    SumJoins(part[..first], part[first..last + 1]);
    SumJoins(part[..first] + part[first..last + 1], part[last + 1..]);
    if first == last {
      assert part[first..last + 1] == [part[first]];
      assert [part[first]][..0] == [];
    }
  }

  // ---- Splitting one ----

  ghost predicate IsFirstLargest(s: seq<real>, best: nat) {
    best < |s| && forall k :: 0 <= k < |s| ==> s[k] <= s[best] && (k < best ==> s[k] < s[best])
  }

  // The position of the largest, or of the first of them.
  method Largest(s: seq<real>) returns (best: nat)
    requires s != []
    ensures best < |s| && IsFirstLargest(s, best)
  {
    best := 0;
    for offset := 1 to |s|
      invariant best < offset && IsFirstLargest(s[..offset], best)
    {
      if s[offset] > s[best] {
        best := offset;
      }
    }
  }

  // How far each of the target bins overlaps, and how far they do together.
  method OverlapsOf(from: real, to: real, lower: real, width: real, first: nat, n: nat)
    returns (shares: seq<real>, covered: real)
    ensures shares == Overlaps(from, to, lower, width, first, n) && covered == Total(shares)
  {
    shares, covered := [], 0.0;
    for k := 0 to n
      invariant |shares| == k && forall j :: 0 <= j < k ==> shares[j] == Overlap(from, to, lower, width, first + j)
      invariant covered == Total(shares)
    {
      var piece := Overlap(from, to, lower, width, first + k);
      assert (shares + [piece])[..k] == shares;
      shares := shares + [piece];
      covered := covered + piece;
    }
    assert shares == Overlaps(from, to, lower, width, first, n);
  }

  // The whole parts of the shares, and what is left of each.
  method WholeParts(count: nat, overlaps: seq<real>, covered: real)
      returns (wholes: seq<nat>, left: seq<real>, placed: nat)
    requires covered > 0.0 && Total(overlaps) == covered && forall k :: 0 <= k < |overlaps| ==> overlaps[k] >= 0.0
    ensures |wholes| == |left| == |overlaps| && placed == Sum(wholes)
    ensures forall k: nat :: k < |overlaps| ==>
              var share := Share(count, overlaps, covered, k);
              wholes[k] == share.Floor && left[k] == share - share.Floor as real && 0.0 <= left[k] < 1.0
    ensures Total(left) == (count - placed) as real
    ensures placed <= count
  {
    hide *;
    wholes, left, placed := [], [], 0;
    ghost var shares := Shares(count, overlaps, covered);
    NoneParted(shares);
    for k := 0 to |overlaps|
      invariant |wholes| == k && Parted(wholes, left, placed, shares)
    {
      var share := Share(count, overlaps, covered, k);
      ShareIs(count, overlaps, covered, k);
      SharesAtLeastZero(count, overlaps[k], covered);
      assert shares[k] == share;
      var whole: nat := share.Floor;
      OneMoreParted(wholes, left, placed, shares, whole);
      wholes := wholes + [whole];
      placed := placed + whole;
      left := left + [share - whole as real];
    }
    SharesAddUp(count, overlaps, covered);
    WholeOfIt(count as real, covered);
    AllParted(wholes, left, placed, shares, count);
  }

  // The first of some shares, each parted into its whole part and what is left.
  ghost predicate Parted(wholes: seq<nat>, left: seq<real>, placed: nat, shares: seq<real>) {
    && |wholes| == |left| <= |shares| && placed == Sum(wholes)
    && (forall j: nat :: j < |wholes| ==>
          wholes[j] == shares[j].Floor && left[j] == shares[j] - shares[j].Floor as real && 0.0 <= left[j] < 1.0)
    && Total(left) == Total(shares[..|left|]) - placed as real
  }

  lemma NoneParted(shares: seq<real>)
    ensures Parted([], [], 0, shares)
  {}

  lemma OneMoreParted(wholes: seq<nat>, left: seq<real>, placed: nat, shares: seq<real>, whole: nat)
    requires Parted(wholes, left, placed, shares) && |wholes| < |shares| && whole == shares[|wholes|].Floor
    ensures Parted(wholes + [whole], left + [shares[|wholes|] - whole as real], placed + whole, shares)
  {
    var k := |wholes|;
    assert shares[..k + 1][..k] == shares[..k];
    assert (wholes + [whole])[..k] == wholes && (left + [shares[k] - whole as real])[..k] == left;
  }

  lemma AllParted(wholes: seq<nat>, left: seq<real>, placed: nat, shares: seq<real>, count: nat)
    requires Parted(wholes, left, placed, shares) && |wholes| == |shares| && Total(shares) == count as real
    ensures Total(left) == (count - placed) as real && placed <= count && placed == Sum(wholes)
    ensures |left| == |wholes|
    ensures forall j: nat :: j < |wholes| ==>
              wholes[j] == shares[j].Floor && left[j] == shares[j] - shares[j].Floor as real && 0.0 <= left[j] < 1.0
  {
    assert shares[..|shares|] == shares;
    TotalPositive(left);
  }

  // What the leftovers go by: each part is a share's floor or its ceiling, and what is left over is no
  // more than what has not been taken of the fractions.
  ghost predicate Placing(parts: seq<nat>, shares: seq<real>, left: seq<real>, count: nat, placed: nat) {
    && |parts| == |shares| == |left|
    && placed == Sum(parts) <= count
    && (forall k :: 0 <= k < |parts| ==>
          if left[k] >= 0.0 then parts[k] == shares[k].Floor && left[k] == shares[k] - shares[k].Floor as real
          else parts[k] == shares[k].Floor + 1 && shares[k].Floor as real < shares[k])
    && (forall j: nat, k: nat :: j < |left| && k < |left| && left[j] < 0.0 && left[k] >= 0.0 ==> Ahead(shares, j, k))
    && PositiveTotal(left) >= (count - placed) as real
  }

  lemma {:induction false} SumWith(s: seq<nat>, k: nat, x: nat)
    requires k < |s|
    ensures Sum(s[k := x]) == Sum(s) - s[k] + x
    decreases |s|
  {
    var l := |s| - 1;
    if k == l {
      assert s[k := x][..l] == s[..l];
    } else {
      assert s[k := x][..l] == s[..l][k := x];
      SumWith(s[..l], k, x);
    }
  }

  // With something left over, the largest fraction is one not taken yet.
  lemma SomethingLeft(parts: seq<nat>, shares: seq<real>, left: seq<real>, count: nat, placed: nat, best: nat)
    requires Placing(parts, shares, left, count, placed) && placed < count
    requires best < |left| && IsFirstLargest(left, best)
    ensures left[best] > 0.0 && left[best] < 1.0
    ensures Placing(parts[best := parts[best] + 1], shares, left[best := -1.0], count, placed + 1)
  {
    if left[best] <= 0.0 {
      NothingPositive(left);
      assert false;
    }
    OneTaken(left, best);
    SumWith(parts, best, parts[best] + 1);
    hide Sum, PositiveTotal;
  }

  lemma SomeShares(parts: seq<nat>, shares: seq<real>, left: seq<real>, count: nat, placed: nat)
    requires Placing(parts, shares, left, count, placed) && placed < count
    ensures left != []
  {}

  // The leftovers, one each, to the largest fractions.
  method PlaceLeftovers(wholes: seq<nat>, left0: seq<real>, count: nat, placed0: nat, ghost shares: seq<real>)
    returns (parts: seq<nat>)
    requires Placing(wholes, shares, left0, count, placed0)
    ensures Apportioned(parts, shares) && Sum(parts) == count
  {
    parts := wholes;
    var left, placed := left0, placed0;
    while placed < count
      invariant |parts| == |wholes| && Placing(parts, shares, left, count, placed)
      decreases count - placed
    {
      SomeShares(parts, shares, left, count, placed);
      var best := Largest(left);
      SomethingLeft(parts, shares, left, count, placed, best);
      parts := parts[best := parts[best] + 1];
      left := left[best := -1.0];
      placed := placed + 1;
    }
    AllPlaced(parts, shares, left, count);
  }

  lemma AllPlaced(parts: seq<nat>, shares: seq<real>, left: seq<real>, count: nat)
    requires Placing(parts, shares, left, count, count)
    ensures Apportioned(parts, shares) && Sum(parts) == count
  {
    hide PositiveTotal, Sum, Remainder;
    forall k: nat | k < |parts|
      ensures Rounded(parts[k], shares[k]) && (RoundedUp(parts[k], shares[k]) <==> left[k] < 0.0) {
      assert shares[k] < (shares[k].Floor + 1) as real;
    }
  }

  // One provisional bin's count, added to the target bins it overlaps.
  method SplitBin(out: seq<nat>, count: nat, from: real, to: real, lower: real, width: real)
    returns (out': seq<nat>, ghost part: seq<nat>)
    requires |out| > 0 && from < to && width > 0.0
    ensures FairlySplit(part, count, from, to, lower, width, |out|)
    ensures |out'| == |out| && forall b :: 0 <= b < |out| ==> out'[b] == out[b] + part[b]
  {
    hide *;
    var first, last := BinAt(from, lower, width, |out|), BinAt(to, lower, width, |out|);
    BinsAscend(from, to, lower, width, |out|);
    if first == last {
      part := Alone(first, count, |out|);
      ItIsAlone(count, from, to, lower, width, |out|);
      return out[first := out[first] + count], part;
    }
    var overlaps, covered := OverlapsOf(from, to, lower, width, first, last - first + 1);
    IsCovered(from, to, lower, width, |out|, overlaps);
    var wholes, left, placed := WholeParts(count, overlaps, covered);
    MayPlace(count, overlaps, covered, wholes, left, placed);
    var parts := PlaceLeftovers(wholes, left, count, placed, Shares(count, overlaps, covered));
    out' := AddFrom(out, parts, first);
    part := Placed(parts, first, |out|);
    ItIsFair(parts, count, from, to, lower, width, |out|, overlaps);
  }

  // All of a bin's pixels in the one target bin it lies in.
  lemma ItIsAlone(count: nat, from: real, to: real, lower: real, width: real, bins: nat)
    requires width > 0.0 && bins > 0 && BinAt(from, lower, width, bins) == BinAt(to, lower, width, bins)
    ensures FairlySplit(Alone(BinAt(from, lower, width, bins), count, bins), count, from, to, lower, width, bins)
  {
    AloneAddsUp(BinAt(from, lower, width, bins), count, bins);
    hide Sum, BinAt;
  }

  lemma IsCovered(from: real, to: real, lower: real, width: real, bins: nat, overlaps: seq<real>)
    requires from < to && width > 0.0 && bins > 0
    requires BinAt(from, lower, width, bins) < BinAt(to, lower, width, bins)
    requires overlaps == Overlaps(from, to, lower, width, BinAt(from, lower, width, bins),
                                  BinAt(to, lower, width, bins) - BinAt(from, lower, width, bins) + 1)
    ensures Total(overlaps) > 0.0 && forall k :: 0 <= k < |overlaps| ==> overlaps[k] >= 0.0
    ensures |overlaps| == BinAt(to, lower, width, bins) - BinAt(from, lower, width, bins) + 1
  {
    StraddlersAreCovered(from, to, lower, width, bins);
    TotalAtLeast(overlaps, 0);
    hide BinAt, Overlap, Total;
  }

  lemma MayPlace(count: nat, overlaps: seq<real>, covered: real, wholes: seq<nat>, left: seq<real>, placed: nat)
    requires covered > 0.0 && |wholes| == |left| == |overlaps| && placed == Sum(wholes) <= count
    requires forall k: nat :: k < |overlaps| ==>
               var share := Share(count, overlaps, covered, k);
               wholes[k] == share.Floor && left[k] == share - share.Floor as real && 0.0 <= left[k] < 1.0
    requires Total(left) == (count - placed) as real
    ensures Placing(wholes, Shares(count, overlaps, covered), left, count, placed)
  {
    AllPositive(left);
    hide Share, Sum, Total, PositiveTotal;
  }

  lemma ItIsFair(parts: seq<nat>, count: nat, from: real, to: real, lower: real, width: real, bins: nat,
                 overlaps: seq<real>)
    requires from < to && width > 0.0 && bins > 0
    requires BinAt(from, lower, width, bins) < BinAt(to, lower, width, bins)
    requires overlaps == Overlaps(from, to, lower, width, BinAt(from, lower, width, bins),
                                  BinAt(to, lower, width, bins) - BinAt(from, lower, width, bins) + 1)
    requires |parts| == |overlaps| && Sum(parts) == count && Total(overlaps) > 0.0
    requires Apportioned(parts, Shares(count, overlaps, Total(overlaps)))
    ensures BinAt(from, lower, width, bins) + |parts| <= bins
    ensures FairlySplit(Placed(parts, BinAt(from, lower, width, bins), bins), count, from, to, lower, width, bins)
  {
    var first := BinAt(from, lower, width, bins);
    PlacedAddsUp(parts, first, bins);
    hide BinAt, Overlap, Total, Share, Sum, Apportioned;
    assert Placed(parts, first, bins)[first..first + |parts|] == parts;
  }

  lemma BinsAscend(from: real, to: real, lower: real, width: real, bins: nat)
    requires from < to && width > 0.0 && bins > 0
    ensures BinAt(from, lower, width, bins) <= BinAt(to, lower, width, bins)
  {
    var f, l := ((from - lower) / width).Floor, ((to - lower) / width).Floor;
    BinIs(lower, width, from, f);
    BinIs(lower, width, to, l);
    EdgesAscend(lower, width, f, l + 1);
    hide Edge;
  }

  method AddFrom(out: seq<nat>, parts: seq<nat>, first: nat) returns (out': seq<nat>)
    requires first + |parts| <= |out|
    ensures |out'| == |out|
    ensures forall b :: 0 <= b < |out| ==>
              out'[b] == out[b] + if first <= b < first + |parts| then parts[b - first] else 0
  {
    out' := out;
    for offset := 0 to |parts|
      invariant |out'| == |out|
      invariant forall b :: 0 <= b < |out| ==>
                  out'[b] == out[b] + if first <= b < first + offset then parts[b - first] else 0
    {
      out' := out'[first + offset := out'[first + offset] + parts[offset]];
    }
  }

  ghost function Alone(first: nat, count: nat, bins: nat): (part: seq<nat>)
    requires first < bins
    ensures |part| == bins && forall b :: 0 <= b < bins ==> part[b] == if b == first then count else 0
  {
    seq(bins, b => if b == first then count else 0)
  }

  lemma AloneAddsUp(first: nat, count: nat, bins: nat)
    requires first < bins
    ensures Sum(Alone(first, count, bins)) == count
  {
    PlacedAddsUp([count], first, bins);
    assert Placed([count], first, bins) == Alone(first, count, bins);
    assert [count][..0] == [];
  }

  ghost function Placed(parts: seq<nat>, first: nat, bins: nat): (part: seq<nat>)
    requires first + |parts| <= bins
    ensures |part| == bins
    ensures forall b :: 0 <= b < bins ==> part[b] == if first <= b < first + |parts| then parts[b - first] else 0
  {
    seq(bins, b => if first <= b < first + |parts| then parts[b - first] else 0)
  }

  lemma PlacedAddsUp(parts: seq<nat>, first: nat, bins: nat)
    requires first + |parts| <= bins
    ensures Sum(Placed(parts, first, bins)) == Sum(parts)
  {
    hide Sum;
    var part := Placed(parts, first, bins);
    Thirds(part, first, first + |parts|);
    assert part[first..first + |parts|] == parts;
    SumZeros(part[..first]);
    SumZeros(part[first + |parts|..]);
    SumJoins(part[..first], parts);
    SumJoins(part[..first] + parts, part[first + |parts|..]);
  }

  // ---- The whole histogram ----

  // What the first n provisional bins put in target bin b.
  ghost function Column(parts: seq<seq<nat>>, b: nat): nat
    requires forall i :: 0 <= i < |parts| ==> b < |parts[i]|
  {
    if parts == [] then 0 else Column(parts[..|parts| - 1], b) + parts[|parts| - 1][b]
  }

  // The answer: bin by bin, what each provisional bin's fair split put there.
  ghost predicate Aggregated(out: seq<nat>, parts: seq<seq<nat>>, counts: seq<nat>, n: nat, from: real, step: real,
                             lower: real, width: real)
    requires step > 0.0 && width > 0.0 && |out| > 0
  {
    && n <= |counts| && |parts| == n
    && (forall i :: 0 <= i < n ==>
          FairlySplit(parts[i], counts[i], Edge(from, step, i), Edge(from, step, i) + step, lower, width, |out|))
    && (forall i :: 0 <= i < n ==> |parts[i]| == |out|)
    && forall b: nat :: b < |out| ==> out[b] == Column(parts, b)
  }

  lemma NothingApportioned(none: seq<nat>, overlaps: seq<real>)
    requires |none| == |overlaps| && Total(overlaps) > 0.0 && forall k :: 0 <= k < |none| ==> none[k] == 0
    ensures Apportioned(none, Shares(0, overlaps, Total(overlaps)))
  {
    hide Total;
    forall k: nat | k < |overlaps| ensures Share(0, overlaps, Total(overlaps), k) == 0.0 {}
  }

  lemma NothingSplit(bins: nat, from: real, to: real, lower: real, width: real)
    requires from < to && width > 0.0 && bins > 0
    ensures FairlySplit(seq(bins, _ => 0), 0, from, to, lower, width, bins)
  {
    var none: seq<nat> := seq(bins, _ => 0);
    SumZeros(none);
    if BinAt(from, lower, width, bins) < BinAt(to, lower, width, bins) {
      var first, last := BinAt(from, lower, width, bins), BinAt(to, lower, width, bins);
      var overlaps := Overlaps(from, to, lower, width, first, last - first + 1);
      StraddlersAreCovered(from, to, lower, width, bins);
      TotalAtLeast(overlaps, 0);
      NothingApportioned(none[first..last + 1], overlaps);
    }
  }

  lemma OneMoreAggregated(out: seq<nat>, out': seq<nat>, parts: seq<seq<nat>>, part: seq<nat>, counts: seq<nat>, n: nat,
                          from: real, step: real, lower: real, width: real)
    requires step > 0.0 && width > 0.0 && |out| > 0 && n < |counts|
    requires Aggregated(out, parts, counts, n, from, step, lower, width)
    requires FairlySplit(part, counts[n], Edge(from, step, n), Edge(from, step, n) + step, lower, width, |out|)
    requires |out'| == |out| && |part| == |out| && forall b :: 0 <= b < |out| ==> out'[b] == out[b] + part[b]
    ensures Aggregated(out', parts + [part], counts, n + 1, from, step, lower, width)
  {
    hide FairlySplit, Edge;
    var more := parts + [part];
    assert more[..n] == parts;
  }

  lemma {:induction false} ColumnsAddUp(parts: seq<seq<nat>>, out: seq<nat>, counts: seq<nat>)
    requires |parts| == |counts| && forall i :: 0 <= i < |parts| ==> |parts[i]| == |out| && Sum(parts[i]) == counts[i]
    requires forall b: nat :: b < |out| ==> out[b] == Column(parts, b)
    ensures Sum(out) == Sum(counts)
    decreases |parts|
  {
    hide Sum;
    if parts == [] {
      SumZeros(out);
      SumZeros(counts);
    } else {
      var l := |parts| - 1;
      var before: seq<nat> := seq(|out|, b requires 0 <= b < |out| => Column(parts[..l], b));
      ColumnsAddUp(parts[..l], before, counts[..l]);
      SumsAdd(before, parts[l], out);
      SumLast(counts);
    }
  }

  lemma SumLast(s: seq<nat>)
    requires s != []
    ensures Sum(s) == Sum(s[..|s| - 1]) + s[|s| - 1]
  {}

  lemma {:induction false} SumsAdd(a: seq<nat>, b: seq<nat>, c: seq<nat>)
    requires |a| == |b| == |c| && forall i :: 0 <= i < |a| ==> c[i] == a[i] + b[i]
    ensures Sum(c) == Sum(a) + Sum(b)
    decreases |a|
  {
    if a != [] { SumsAdd(a[..|a| - 1], b[..|b| - 1], c[..|c| - 1]); }
  }

  // The provisional counts on the target range: every pixel comes out in some target bin, and each
  // provisional bin's are split fairly between the target bins it overlaps. A range of no width has
  // one bin they can be in.
  method Aggregate(counts: seq<nat>, from: real, step: real, bins: nat, lower: real, upper: real)
    returns (out: seq<nat>, ghost parts: seq<seq<nat>>)
    requires bins > 0 && step > 0.0
    ensures |out| == bins && Sum(out) == Sum(counts)
    ensures lower < upper ==>
              (upper - lower) / bins as real > 0.0
              && Aggregated(out, parts, counts, |counts|, from, step, lower, (upper - lower) / bins as real)
    ensures !(lower < upper) ==> out[0] == Sum(counts)
  {
    hide *;
    out, parts := seq(bins, _ => 0), [];
    if !(lower < upper) {
      AllInTheFirst(Sum(counts), bins);
      out := out[0 := Sum(counts)];
      return;
    }
    PositiveWidth(lower, upper, bins);
    var width := (upper - lower) / bins as real;
    NothingAggregated(out, counts, from, step, lower, width);
    for i := 0 to |counts|
      invariant |out| == bins && Aggregated(out, parts, counts, i, from, step, lower, width)
    {
      var begin := Edge(from, step, i);
      if counts[i] == 0 {
        NothingSplit(bins, begin, begin + step, lower, width);
        ghost var none: seq<nat> := seq(bins, _ => 0);
        OneMoreAggregated(out, out, parts, none, counts, i, from, step, lower, width);
        parts := parts + [none];
        continue;
      }
      var out';
      ghost var part;
      out', part := SplitBin(out, counts[i], begin, begin + step, lower, width);
      SplitSize(part, counts[i], begin, begin + step, lower, width, bins);
      OneMoreAggregated(out, out', parts, part, counts, i, from, step, lower, width);
      out, parts := out', parts + [part];
    }
    AggregatedAddsUp(out, parts, counts, from, step, lower, width);
  }

  lemma AllInTheFirst(count: nat, bins: nat)
    requires bins > 0
    ensures var none: seq<nat> := seq(bins, _ => 0);
            Sum(none[0 := count]) == count
  {
    var none: seq<nat> := seq(bins, _ => 0);
    AloneAddsUp(0, count, bins);
    assert none[0 := count] == Alone(0, count, bins);
  }

  lemma NothingAggregated(out: seq<nat>, counts: seq<nat>, from: real, step: real, lower: real, width: real)
    requires step > 0.0 && width > 0.0 && |out| > 0 && forall b :: 0 <= b < |out| ==> out[b] == 0
    ensures Aggregated(out, [], counts, 0, from, step, lower, width)
  {}

  lemma AggregatedAddsUp(out: seq<nat>, parts: seq<seq<nat>>, counts: seq<nat>, from: real, step: real, lower: real,
                         width: real)
    requires step > 0.0 && width > 0.0 && |out| > 0
    requires Aggregated(out, parts, counts, |counts|, from, step, lower, width)
    ensures Sum(out) == Sum(counts)
  {
    forall i | 0 <= i < |parts| ensures |parts[i]| == |out| && Sum(parts[i]) == counts[i] {
      SplitSize(parts[i], counts[i], Edge(from, step, i), Edge(from, step, i) + step, lower, width, |out|);
    }
    hide FairlySplit, Edge, Sum;
    ColumnsAddUp(parts, out, counts);
  }

  lemma SplitSize(part: seq<nat>, count: nat, from: real, to: real, lower: real, width: real, bins: nat)
    requires width > 0.0 && bins > 0 && FairlySplit(part, count, from, to, lower, width, bins)
    ensures |part| == bins && Sum(part) == count
  {}

  lemma PositiveWidth(lower: real, upper: real, bins: nat)
    requires lower < upper && bins > 0
    ensures (upper - lower) / bins as real > 0.0
  {
    Positive(upper - lower, bins as real);
  }
}
