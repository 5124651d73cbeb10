// Bins over a range that doubles until it holds each value added: GrowingHistogram, src/reduce/growing_histogram.h,
// over exact reals. The spacing of the floats near the first pixel, which is its first bins' width, is
// any positive number.

module GrowingHistograms {
  import opened Reals

  // ---- Counting ----

  // How many of the values lie in [from, to).
  ghost function CountIn(values: seq<real>, from: real, to: real): nat {
    if values == [] then 0
    else
      var last := values[|values| - 1];
      CountIn(values[..|values| - 1], from, to) + if from <= last < to then 1 else 0
  }

  lemma {:induction false} CountSplits(values: seq<real>, from: real, middle: real, to: real)
    requires from <= middle <= to
    ensures CountIn(values, from, to) == CountIn(values, from, middle) + CountIn(values, middle, to)
    decreases |values|
  {
    if values != [] { CountSplits(values[..|values| - 1], from, middle, to); }
  }

  ghost predicate AllWithin(values: seq<real>, from: real, to: real) {
    forall k :: 0 <= k < |values| ==> from <= values[k] < to
  }

  lemma {:induction false} CountOutside(values: seq<real>, lower: real, upper: real, from: real, to: real)
    requires AllWithin(values, lower, upper) && (to <= lower || upper <= from)
    ensures CountIn(values, from, to) == 0
    decreases |values|
  {
    if values != [] { CountOutside(values[..|values| - 1], lower, upper, from, to); }
  }

  lemma {:induction false} CountAll(values: seq<real>, from: real, to: real)
    requires AllWithin(values, from, to)
    ensures CountIn(values, from, to) == |values|
    decreases |values|
  {
    if values != [] { CountAll(values[..|values| - 1], from, to); }
  }

  lemma CountOneMore(values: seq<real>, v: real, from: real, to: real)
    ensures CountIn(values + [v], from, to) == CountIn(values, from, to) + if from <= v < to then 1 else 0
  {
    assert (values + [v])[..|values|] == values;
  }

  function Sum(counts: seq<nat>): nat {
    if counts == [] then 0 else Sum(counts[..|counts| - 1]) + counts[|counts| - 1]
  }

  // ---- Edges ----

  // Where the bins of a histogram begin.
  function Edge(lower: real, width: real, i: int): real {
    lower + width * i as real
  }

  lemma EdgesAscend(lower: real, width: real, i: int, j: int)
    requires width > 0.0
    ensures i < j <==> Edge(lower, width, i) < Edge(lower, width, j)
  {
    Scale(width, i as real, j as real);
  }

  lemma Scale(width: real, x: real, y: real)
    requires width > 0.0
    ensures x < y <==> width * x < width * y
  {}

  // Doubling upward: bin m of the wider histogram begins where bin 2m did.
  lemma EdgeUpward(lower: real, width: real, m: int)
    ensures Edge(lower, 2.0 * width, m) == Edge(lower, width, 2 * m)
  {}

  // Doubling downward by n bins.
  lemma EdgeDownward(lower: real, width: real, n: nat, m: int)
    ensures Edge(lower - Span(width, n), 2.0 * width, m) == Edge(lower, width, 2 * m - n)
  {}

  // The bin of a value.
  lemma BinIs(lower: real, width: real, v: real, i: int)
    requires width > 0.0
    ensures ((v - lower) / width).Floor == i <==> Edge(lower, width, i) <= v < Edge(lower, width, i + 1)
  {
    var x := (v - lower) / width;
    Quotient(x, width, v - lower);
    BeforeEdge(lower, width, x, i);
    BeforeEdge(lower, width, x, i + 1);
    hide Edge;
    FloorIs(x, i);
  }

  lemma BeforeEdge(lower: real, width: real, x: real, i: int)
    requires width > 0.0
    ensures lower + width * x < Edge(lower, width, i) <==> x < i as real
  {
    Scale(width, x, i as real);
  }

  lemma FloorIs(x: real, i: int)
    ensures x.Floor == i <==> i as real <= x < (i + 1) as real
  {
    if i as real <= x < (i + 1) as real {
      assert x.Floor as real < (i + 1) as real;
      assert i as real < (x.Floor + 1) as real;
    }
  }

  // How wide n bins are together.
  function Span(width: real, n: nat): real {
    width * n as real
  }

  // ---- The histogram ----

  ghost predicate Bins(counts: seq<nat>, lower: real, width: real, added: seq<real>) {
    forall i :: 0 <= i < |counts| ==> counts[i] == CountIn(added, Edge(lower, width, i), Edge(lower, width, i + 1))
  }

  class GrowingHistogram {
    var counts: seq<nat>
    var lower: real
    var width: real
    var seeded: bool
    // Every value added, in order.
    ghost var added: seq<real>

    // Each bin holds exactly the number of added values in its half-open interval, and every value is
    // in some bin.
    ghost predicate Valid()
      reads this
    {
      && |counts| > 0 && width > 0.0
      && (seeded ==>
            && Bins(counts, lower, width, added)
            && AllWithin(added, lower, Edge(lower, width, |counts|)))
      && (!seeded ==> added == [] && forall i :: 0 <= i < |counts| ==> counts[i] == 0)
    }

    constructor (bins: nat)
      requires bins > 0
      ensures Valid() && |counts| == bins && added == []
    {
      counts := seq(bins, _ => 0);
      lower, width, seeded := 0.0, 1.0, false;
      added := [];
    }

    // Doubles the range to one side, merging bins in pairs.
    method Grow(upward: bool)
      requires Valid() && seeded && |counts| % 2 == 0
      modifies this`counts, this`lower, this`width
      ensures Valid() && |counts| == |old(counts)|
      ensures width == 2.0 * old(width)
      ensures lower == if upward then old(lower) else old(lower) - Span(old(width), |old(counts)|)
    {
      hide Bins, AllWithin, Edge, Pairs;
      var merged := Merged(counts, upward);
      GrowthKeepsBins(counts, lower, width, added, upward, merged);
      if !upward {
        lower := lower - Span(width, |counts|);
      }
      width := 2.0 * width;
      counts := merged;
    }

    // A value, whatever range the ones before it had. `spacing` is that of the floats at the first.
    method Add(v: real, spacing: real)
      requires Valid() && |counts| % 2 == 0 && spacing > 0.0
      modifies this
      ensures Valid() && |counts| == |old(counts)| && seeded
      ensures added == old(added) + [v]
    {
      hide *;
      ValidMeans();
      if !seeded {
        width := spacing;
        lower := v - spacing * (|counts| / 2) as real;
        seeded := true;
        NothingCounted(counts, lower, width);
        ItIsValid();
      }
      ghost var before := added;
      while v < lower
        invariant Valid() && seeded && |counts| == |old(counts)| && added == before
        decreases Below(v, lower, Span(width, |counts|))
      {
        ValidMeans();
        BelowShrinks(v, lower, width, |counts|);
        Grow(false);
      }
      while v >= lower + Span(width, |counts|)
        invariant Valid() && seeded && |counts| == |old(counts)| && added == before && lower <= v
        decreases Above(v, lower, Span(width, |counts|))
      {
        ValidMeans();
        AboveShrinks(v, lower, width, |counts|);
        Grow(true);
      }
      ValidMeans();
      var at := ((v - lower) / width).Floor;
      BinIs(lower, width, v, at);
      InRange(lower, width, |counts|, v, at);
      var bin := if at >= |counts| then |counts| - 1 else at;
      BinnedOnce(counts, lower, width, added, v, bin);
      counts := counts[bin := counts[bin] + 1];
      added := added + [v];
      ItIsValid();
    }

    lemma ValidMeans()
      requires Valid()
      ensures |counts| > 0 && width > 0.0
      ensures if seeded then
                Bins(counts, lower, width, added) && AllWithin(added, lower, Edge(lower, width, |counts|))
              else added == [] && forall i :: 0 <= i < |counts| ==> counts[i] == 0
    {}

    lemma ItIsValid()
      requires |counts| > 0 && seeded && width > 0.0
      requires Bins(counts, lower, width, added) && AllWithin(added, lower, Edge(lower, width, |counts|))
      ensures Valid()
    {}

    // The counts add up to the values added.
    lemma TotalIsAdded()
      requires Valid()
      ensures Sum(counts) == |added|
    {
      if seeded {
        BinsAddUp(counts, lower, width, added, |counts|);
        assert counts[..|counts|] == counts;
        CountAll(added, lower, Edge(lower, width, |counts|));
      } else {
        ZerosAddUp(counts);
      }
    }
  }

  // ---- Growing ----

  // Each pair of neighbours put together, in the half of the new range that was the old one.
  function Pairs(counts: seq<nat>, upward: bool): (merged: seq<nat>)
    ensures |merged| == |counts|
  {
    var half := |counts| / 2;
    seq(|counts|, i requires 0 <= i < |counts| =>
      var m := if upward then i else i - half;
      if 0 <= m < half then counts[2 * m] + counts[2 * m + 1] else 0)
  }

  method Merged(counts: seq<nat>, upward: bool) returns (merged: seq<nat>)
    ensures merged == Pairs(counts, upward)
  {
    var half := |counts| / 2;
    merged := seq(|counts|, _ => 0);
    for m := 0 to half
      invariant |merged| == |counts|
      invariant forall i :: 0 <= i < |counts| ==>
                  merged[i] == if (if upward then i else i - half) < m then Pairs(counts, upward)[i] else 0
    {
      merged := merged[(if upward then m else half + m) := counts[2 * m] + counts[2 * m + 1]];
    }
  }

  // When the bins pair off, doubling keeps every bin exact: those of the doubled range hold what lies between
  // their own edges.
  lemma GrowthKeepsBins(counts: seq<nat>, lower: real, width: real, added: seq<real>, upward: bool, merged: seq<nat>)
    requires |counts| > 0 && |counts| % 2 == 0 && width > 0.0 && Bins(counts, lower, width, added)
    requires AllWithin(added, lower, Edge(lower, width, |counts|)) && merged == Pairs(counts, upward)
    ensures var lower' := if upward then lower else lower - Span(width, |counts|);
      && Bins(merged, lower', 2.0 * width, added)
      && AllWithin(added, lower', Edge(lower', 2.0 * width, |counts|))
  {
    hide *;
    var n := |counts|;
    var lower' := if upward then lower else lower - Span(width, n);
    var shift := if upward then 0 else n;
    PairsAreAsMany(counts, upward);
    forall i: nat | i < n
      ensures merged[i] == CountIn(added, Edge(lower', 2.0 * width, i), Edge(lower', 2.0 * width, i + 1))
    {
      EdgeDoubled(lower, width, n, upward, i);
      EdgeDoubled(lower, width, n, upward, i + 1);
      assert 2 * (i + 1) - shift == 2 * i - shift + 2;
      PairCounts(counts, lower, width, added, 2 * i - shift);
      PairAt(counts, upward, i);
    }
    TheyAreBins(merged, lower', 2.0 * width, added);
    WiderHoldsAll(lower, width, n, upward, added);
  }

  lemma PairsAreAsMany(counts: seq<nat>, upward: bool)
    ensures |Pairs(counts, upward)| == |counts|
  {}

  lemma TheyAreBins(counts: seq<nat>, lower: real, width: real, added: seq<real>)
    requires forall i: nat :: i < |counts| ==>
              counts[i] == CountIn(added, Edge(lower, width, i), Edge(lower, width, i + 1))
    ensures Bins(counts, lower, width, added)
  {}

  lemma WiderHoldsAll(lower: real, width: real, n: nat, upward: bool, added: seq<real>)
    requires width > 0.0 && n > 0 && AllWithin(added, lower, Edge(lower, width, n))
    ensures var lower' := if upward then lower else lower - Span(width, n);
            AllWithin(added, lower', Edge(lower', 2.0 * width, n))
  {
    SpanIsPositive(width, n);
  }

  lemma EdgeDoubled(lower: real, width: real, n: nat, upward: bool, m: int)
    ensures Edge(if upward then lower else lower - Span(width, n), 2.0 * width, m)
         == Edge(lower, width, 2 * m - if upward then 0 else n)
  {
    if upward { EdgeUpward(lower, width, m); } else { EdgeDownward(lower, width, n, m); }
  }

  lemma PairAt(counts: seq<nat>, upward: bool, i: nat)
    requires i < |counts| && |counts| % 2 == 0
    ensures var k := 2 * i - if upward then 0 else |counts|;
            Pairs(counts, upward)[i] == if 0 <= k < |counts| then counts[k] + counts[k + 1] else 0
  {}

  lemma EdgeAtZero(lower: real, width: real)
    ensures Edge(lower, width, 0) == lower
  {}

  // Two old bins' worth of the line, on the histogram or beside it.
  lemma PairCounts(counts: seq<nat>, lower: real, width: real, added: seq<real>, k: int)
    requires width > 0.0 && Bins(counts, lower, width, added) && AllWithin(added, lower, Edge(lower, width, |counts|))
    requires |counts| % 2 == 0 && k % 2 == 0
    ensures CountIn(added, Edge(lower, width, k), Edge(lower, width, k + 2))
         == if 0 <= k < |counts| then counts[k] + counts[k + 1] else 0
  {
    EdgesAscend(lower, width, k, k + 1);
    EdgesAscend(lower, width, k + 1, k + 2);
    EdgeAtZero(lower, width);
    hide Edge;
    if 0 <= k < |counts| {
      CountSplits(added, Edge(lower, width, k), Edge(lower, width, k + 1), Edge(lower, width, k + 2));
    } else {
      EdgesAscend(lower, width, k + 2, 0);
      EdgesAscend(lower, width, 0, k + 2);
      EdgesAscend(lower, width, |counts|, k);
      EdgesAscend(lower, width, k, |counts|);
      CountOutside(added, lower, Edge(lower, width, |counts|), Edge(lower, width, k), Edge(lower, width, k + 2));
    }
  }

  lemma PairsAddUp(counts: seq<nat>, upward: bool)
    ensures Sum(Pairs(counts, upward)) == Sum(counts[..|counts| / 2 * 2])
  {
    hide Sum;
    var half := |counts| / 2;
    var merged := Pairs(counts, upward);
    var first := if upward then 0 else half;
    SumUpTo(counts, merged, first, half);
    SumZeros(merged[..first]);
    SumZeros(merged[first + half..]);
    Thirds(merged, first, first + half);
    SumJoins(merged[..first], merged[first..first + half]);
    SumJoins(merged[..first] + merged[first..first + half], merged[first + half..]);
  }

  lemma Thirds<T>(s: seq<T>, a: nat, b: nat)
    requires a <= b <= |s|
    ensures s == s[..a] + s[a..b] + s[b..]
  {}

  lemma {:induction false} SumJoins(a: seq<nat>, b: seq<nat>)
    ensures Sum(a + b) == Sum(a) + Sum(b)
    decreases |b|
  {
    if b == [] {
      assert a + b == a;
    } else {
      assert (a + b)[..|a + b| - 1] == a + b[..|b| - 1];
      SumJoins(a, b[..|b| - 1]);
    }
  }

  lemma {:induction false} SumZeros(s: seq<nat>)
    requires forall i :: 0 <= i < |s| ==> s[i] == 0
    ensures Sum(s) == 0
    decreases |s|
  {
    if s != [] { SumZeros(s[..|s| - 1]); }
  }

  lemma {:induction false} SumUpTo(counts: seq<nat>, merged: seq<nat>, first: nat, m: nat)
    requires 2 * m <= |counts| && first + m <= |merged|
    requires forall i :: 0 <= i < m ==> merged[first + i] == counts[2 * i] + counts[2 * i + 1]
    ensures Sum(merged[first..first + m]) == Sum(counts[..2 * m])
  {
    if m > 0 {
      SumUpTo(counts, merged, first, m - 1);
      assert merged[first..first + m][..m - 1] == merged[first..first + (m - 1)];
      assert merged[first..first + m][m - 1] == counts[2 * m - 2] + counts[2 * m - 1];
      assert counts[..2 * m][..2 * m - 1][..2 * m - 2] == counts[..2 * (m - 1)];
      assert Sum(counts[..2 * m]) == Sum(counts[..2 * m][..2 * m - 1]) + counts[2 * m - 1];
    }
  }

  // Growing keeps every count exactly when the number of bins is even or the last bin is empty: with an
  // odd one the last bin is nobody's pair.
  lemma GrowthKeepsCounts(counts: seq<nat>, upward: bool)
    requires counts != []
    ensures Sum(Pairs(counts, upward)) == Sum(counts) <==> |counts| % 2 == 0 || counts[|counts| - 1] == 0
  {
    PairsAddUp(counts, upward);
    if |counts| % 2 == 0 {
      assert counts[..|counts| / 2 * 2] == counts;
    } else {
      assert |counts| / 2 * 2 == |counts| - 1;
    }
  }

  // One value in the last of three bins is lost.
  lemma OddGrowthLoses(upward: bool)
    ensures var counts: seq<nat> := [0, 0, 1];
            Sum(counts) == 1 && Sum(Pairs(counts, upward)) == 0
  {
    var counts: seq<nat> := [0, 0, 1];
    PairsAddUp(counts, upward);
    SumOfThree(0, 0, 1);
    hide Sum, Pairs;
    assert |counts| / 2 * 2 == 2 && counts[..2] == [0, 0];
  }

  lemma SumOfThree(a: nat, b: nat, c: nat)
    ensures Sum([a, b]) == a + b && Sum([a, b, c]) == a + b + c
  {
    var one, two, three: seq<nat> := [a], [a, b], [a, b, c];
    assert three[..2] == two && two[..1] == one && one[..0] == [];
    assert Sum(one) == a && Sum(two) == a + b;
  }

  // ---- Termination ----

  // How far a value is below the range, or above it, in whole ranges.
  ghost function Below(v: real, lower: real, span: real): nat
  {
    if span > 0.0 && v < lower && (lower - v) / span > 0.0 then ((lower - v) / span).Floor + 1 else 0
  }

  ghost function Above(v: real, lower: real, span: real): nat
  {
    if span > 0.0 && v >= lower + span && (v - lower) / span > 0.0 then ((v - lower) / span).Floor else 0
  }

  lemma SpanIsPositive(width: real, n: nat)
    requires width > 0.0 && n > 0
    ensures Span(width, n) > 0.0 && Span(2.0 * width, n) == 2.0 * Span(width, n)
  {}

  lemma BelowShrinks(v: real, lower: real, width: real, n: nat)
    requires v < lower && width > 0.0 && n > 0
    ensures Below(v, lower - Span(width, n), Span(2.0 * width, n)) < Below(v, lower, Span(width, n))
  {
    SpanIsPositive(width, n);
    hide Span;
    Positive(lower - v, Span(width, n));
    HalvedBelow(lower - v, Span(width, n));
  }

  lemma Positive(gap: real, span: real)
    requires span > 0.0 && gap > 0.0
    ensures gap / span > 0.0
  {
    Quotient(gap / span, span, gap);
    Scale(span, 0.0, gap / span);
  }

  lemma HalvedBelow(gap: real, span: real)
    requires span > 0.0 && gap > 0.0
    ensures (gap - span) / (2.0 * span) == (gap / span - 1.0) / 2.0
  {
    Quotient(gap / span, span, gap);
    Quotient((gap / span - 1.0) / 2.0, 2.0 * span, gap - span);
  }

  lemma Halved(gap: real, span: real)
    requires span > 0.0
    ensures gap / (2.0 * span) == gap / span / 2.0
  {
    Quotient(gap / span, span, gap);
    Quotient(gap / span / 2.0, 2.0 * span, gap);
  }

  lemma AboveShrinks(v: real, lower: real, width: real, n: nat)
    requires v >= lower + Span(width, n) && width > 0.0 && n > 0
    ensures Above(v, lower, Span(2.0 * width, n)) < Above(v, lower, Span(width, n))
  {
    SpanIsPositive(width, n);
    hide Span;
    AtLeastOne(v - lower, Span(width, n));
    Halved(v - lower, Span(width, n));
  }

  lemma AtLeastOne(gap: real, span: real)
    requires span > 0.0 && gap >= span
    ensures gap / span >= 1.0
  {}

  // ---- One value more ----

  lemma NothingCounted(counts: seq<nat>, lower: real, width: real)
    requires forall i :: 0 <= i < |counts| ==> counts[i] == 0
    ensures Bins(counts, lower, width, []) && AllWithin([], lower, Edge(lower, width, |counts|))
  {}

  // In the range, a value's bin is one of the histogram's: the guard against a bin past the last is for
  // rounding alone.
  lemma InRange(lower: real, width: real, n: nat, v: real, at: int)
    requires width > 0.0 && lower <= v < lower + Span(width, n)
    requires Edge(lower, width, at) <= v < Edge(lower, width, at + 1)
    ensures 0 <= at < n
  {
    EdgesAscend(lower, width, at + 1, 0);
    EdgesAscend(lower, width, 0, at + 1);
    EdgesAscend(lower, width, at, n);
    EdgeAtZero(lower, width);
  }

  lemma BinnedOnce(counts: seq<nat>, lower: real, width: real, added: seq<real>, v: real, bin: nat)
    requires bin < |counts| && width > 0.0 && Bins(counts, lower, width, added)
    requires AllWithin(added, lower, Edge(lower, width, |counts|))
    requires Edge(lower, width, bin) <= v < Edge(lower, width, bin + 1)
    ensures Bins(counts[bin := counts[bin] + 1], lower, width, added + [v])
    ensures AllWithin(added + [v], lower, Edge(lower, width, |counts|))
  {
    EdgeAtZero(lower, width);
    EdgesAscend(lower, width, bin, 0);
    EdgesAscend(lower, width, |counts|, bin + 1);
    hide Edge;
    forall i | 0 <= i < |counts|
      ensures CountIn(added + [v], Edge(lower, width, i), Edge(lower, width, i + 1))
           == counts[i] + if i == bin then 1 else 0
    {
      CountOneMore(added, v, Edge(lower, width, i), Edge(lower, width, i + 1));
      EdgesAscend(lower, width, i, bin + 1);
      EdgesAscend(lower, width, bin, i + 1);
      EdgesAscend(lower, width, bin + 1, i);
      EdgesAscend(lower, width, i + 1, bin);
    }
  }

  lemma {:induction false} BinsAddUp(counts: seq<nat>, lower: real, width: real, added: seq<real>, n: nat)
    requires n <= |counts| && width > 0.0 && Bins(counts, lower, width, added)
    ensures Sum(counts[..n]) == CountIn(added, lower, Edge(lower, width, n))
  {
    EdgeAtZero(lower, width);
    if n == 0 {
      CountNone(added, lower);
    } else {
      BinsAddUp(counts, lower, width, added, n - 1);
      EdgesAscend(lower, width, 0, n - 1);
      EdgesAscend(lower, width, n - 1, n);
      EdgesAscend(lower, width, n - 1, 0);
      assert counts[..n][..n - 1] == counts[..n - 1];
      CountSplits(added, lower, Edge(lower, width, n - 1), Edge(lower, width, n));
    }
  }

  lemma {:induction false} CountNone(values: seq<real>, at: real)
    ensures CountIn(values, at, at) == 0
    decreases |values|
  {
    if values != [] { CountNone(values[..|values| - 1], at); }
  }

  lemma ZerosAddUp(counts: seq<nat>)
    requires forall i :: 0 <= i < |counts| ==> counts[i] == 0
    ensures Sum(counts) == 0
  {
    SumZeros(counts);
  }
}
