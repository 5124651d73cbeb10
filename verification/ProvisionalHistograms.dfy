// The one-pass histogram of a cube: ProvisionalHistograms, src/reduce/provisional_histograms.h. Each
// task fills a growing histogram of its own and the totals beside it; nothing meets until Collect.

module ProvisionalHistograms {
  import opened Wrappers
  import opened Values
  import opened Deviations
  import opened Statistics
  import opened GrowingHistograms
  import opened Aggregation
  import opened SlabReduction
  import opened TaskSplits
  import A = Accumulate

  // ---- How many bins ----

  const PROVISIONAL_BINS_PER_BIN := 16
  const LEAST_PROVISIONAL_BINS := 0x1000
  const MOST_PROVISIONAL_BINS := 0x1_0000

  ghost predicate PowerOfTwo(n: nat) {
    n == 1 || (n > 1 && n % 2 == 0 && PowerOfTwo(n / 2))
  }

  function Requested(bins: nat, provisionalBins: nat, mostBins: nat): nat {
    var provisional :=
      if provisionalBins != 0 then provisionalBins
      else
        var wanted := bins * PROVISIONAL_BINS_PER_BIN;
        if wanted < LEAST_PROVISIONAL_BINS then LEAST_PROVISIONAL_BINS
        else if wanted > MOST_PROVISIONAL_BINS then MOST_PROVISIONAL_BINS else wanted;
    if mostBins < provisional then mostBins else provisional
  }

  // The least power of two, of two or more, that holds what was asked for: so the bins are always even
  // in number, and stay so when they merge in pairs.
  method Resolution(bins: nat, provisionalBins: nat, mostBins: nat) returns (rounded: nat)
    ensures PowerOfTwo(rounded) && rounded >= 2 && rounded % 2 == 0
    ensures rounded >= Requested(bins, provisionalBins, mostBins)
    ensures rounded > 2 ==> rounded < 2 * Requested(bins, provisionalBins, mostBins)
  {
    var provisional := Requested(bins, provisionalBins, mostBins);
    rounded := 2;
    while rounded < provisional
      invariant PowerOfTwo(rounded) && rounded >= 2 && rounded % 2 == 0
      invariant rounded > 2 ==> rounded < 2 * provisional
    {
      rounded := rounded * 2;
    }
  }

  // ---- What a list of pixels comes to ----

  ghost function Tally(pixels: seq<Double>): Totals {
    if pixels == [] then Nothing else OfPixel(pixels[|pixels| - 1]).Plus(Tally(pixels[..|pixels| - 1]))
  }

  ghost function Finites(pixels: seq<Double>): seq<real> {
    if pixels == [] then []
    else
      var last := pixels[|pixels| - 1];
      Finites(pixels[..|pixels| - 1]) + if last.Finite? then [last.value] else []
  }

  lemma {:induction false} TallyJoins(a: seq<Double>, b: seq<Double>)
    ensures Tally(a + b) == Tally(a).Plus(Tally(b))
    ensures Finites(a + b) == Finites(a) + Finites(b)
    decreases |b|
  {
    hide Totals.Plus, OfPixel;
    if b == [] {
      assert a + b == a;
      PlusLaws(Tally(a), Nothing, Nothing);
    } else {
      var l := |b| - 1;
      assert (a + b)[..|a + b| - 1] == a + b[..l];
      TallyJoins(a, b[..l]);
      PlusLaws(OfPixel(b[l]), Tally(a), Tally(b[..l]));
      PlusLaws(Tally(a), OfPixel(b[l]), Tally(b[..l]));
    }
  }

  lemma {:induction false} TallyIsProper(pixels: seq<Double>)
    ensures Proper(Tally(pixels)) && Cauchy(Tally(pixels)) && Tally(pixels).good == |Finites(pixels)|
    decreases |pixels|
  {
    if pixels != [] {
      var l := |pixels| - 1;
      TallyIsProper(pixels[..l]);
      CauchyStep(pixels[l], Tally(pixels[..l]));
      hide Cauchy;
    }
  }

  // ---- One task's ----

  class Accumulator {
    var growing: GrowingHistogram
    var numPixels: nat
    var nanCount: nat
    var sum: real
    var sumSq: real
    var minimum: Double
    var maximum: Double
    var spread: Spread
    // Every pixel taken, in order.
    ghost var taken: seq<Double>

    ghost predicate Valid()
      reads this, growing
    {
      && growing.Valid() && |growing.counts| % 2 == 0 && growing.added == Finites(taken)
      && Totalled(numPixels, nanCount, sum, sumSq, minimum, maximum, spread, Tally(taken))
    }

    constructor (bins: nat)
      requires bins > 0 && bins % 2 == 0
      ensures Valid() && taken == [] && fresh(growing)
    {
      growing := new GrowingHistogram(bins);
      numPixels, nanCount, sum, sumSq, minimum, maximum, spread := 0, 0, 0.0, 0.0, PosInf, NegInf, NoSpread;
      taken := [];
    }
  }

  // Running totals that stand for some pixels.
  ghost predicate Totalled(numPixels: nat, nanCount: nat, sum: real, sumSq: real, minimum: Double, maximum: Double,
                           spread: Spread, t: Totals) {
    && numPixels == t.good && nanCount == t.bad && sum == t.sum && sumSq == t.sumSq
    && minimum == t.smallest && maximum == t.largest && spread.Describes(t.good, t.sum, t.sumSq)
  }

  // ---- Rows of a read ----

  // Row `index` of a slab, its rows numbered across its planes.
  function RowAt(slab: Slab, index: nat): nat
    requires slab.vCount > 0
  {
    index / slab.vCount * slab.strideZ + index % slab.vCount * slab.strideV
  }

  function PixelAt(slab: Slab, index: nat, u: nat): nat
    requires slab.vCount > 0
  {
    RowAt(slab, index) + u * slab.strideU
  }

  ghost predicate Readable(slab: Slab, rows: nat) {
    slab.vCount > 0 && forall index: nat, u: nat :: index < rows && u < slab.uCount ==>
      PixelAt(slab, index, u) < |slab.pixels|
  }

  function RowSpan(slab: Slab, index: nat): A.SpanPixels
    requires slab.vCount > 0
  {
    A.SpanPixels(slab.pixels, RowAt(slab, index), slab.strideU, slab.uCount, [], None, 1)
  }

  // The pixels of a row, and of a run of rows.
  ghost function RowPixels(slab: Slab, rows: nat, index: nat): (pixels: seq<Double>)
    requires Readable(slab, rows) && index < rows
    ensures |pixels| == slab.uCount
  {
    seq(slab.uCount, u requires 0 <= u < slab.uCount => slab.pixels[PixelAt(slab, index, u)])
  }

  ghost function RowsPixels(slab: Slab, rows: nat, first: nat, last: nat): seq<Double>
    requires Readable(slab, rows) && first <= last <= rows
    decreases last
  {
    if first == last then [] else RowsPixels(slab, rows, first, last - 1) + RowPixels(slab, rows, last - 1)
  }

  lemma {:induction false} RowsJoin(slab: Slab, rows: nat, a: nat, b: nat, c: nat)
    requires Readable(slab, rows) && a <= b <= c <= rows
    ensures RowsPixels(slab, rows, a, c) == RowsPixels(slab, rows, a, b) + RowsPixels(slab, rows, b, c)
    decreases c
  {
    if b < c {
      RowsJoin(slab, rows, a, b, c - 1);
      assert RowsPixels(slab, rows, a, b) + (RowsPixels(slab, rows, b, c - 1) + RowPixels(slab, rows, c - 1))
          == RowsPixels(slab, rows, a, b) + RowsPixels(slab, rows, b, c - 1) + RowPixels(slab, rows, c - 1);
    } else {
      assert RowsPixels(slab, rows, a, b) + [] == RowsPixels(slab, rows, a, b);
    }
  }

  lemma OneMorePixel(row: seq<Double>, u: nat)
    requires u < |row|
    ensures Tally(row[..u + 1]) == OfPixel(row[u]).Plus(Tally(row[..u]))
    ensures Finites(row[..u + 1]) == Finites(row[..u]) + if row[u].Finite? then [row[u].value] else []
  {
    assert row[..u + 1][..u] == row[..u];
  }

  lemma NoPixel(row: seq<Double>, shift: real)
    ensures Tally(row[..0]) == Nothing && Finites(row[..0]) == [] && A.NO_SUMS.Are(Nothing, shift, true)
  {}

  // The spacing of the floats at a value: any positive number.
  ghost predicate Spaced(spacing: real -> real) {
    forall x :: spacing(x) > 0.0
  }

  lemma SpacedAt(spacing: real -> real, x: real)
    requires Spaced(spacing)
    ensures spacing(x) > 0.0
  {}

  // One row, every pixel of it: into the bins, and into what is folded in at the end.
  method TakeRow(slab: Slab, ghost rows: nat, index: nat, growing: GrowingHistogram, spacing: real -> real)
    returns (sums: A.Sums, shift: real)
    requires Readable(slab, rows) && index < rows && growing.Valid() && |growing.counts| % 2 == 0
    requires Spaced(spacing)
    modifies growing
    ensures growing.Valid() && |growing.counts| == |old(growing.counts)|
    ensures growing.added == old(growing.added) + Finites(RowPixels(slab, rows, index))
    ensures sums.Are(Tally(RowPixels(slab, rows, index)), shift, true)
  {
    hide *;
    ghost var row := RowPixels(slab, rows, index);
    RowShape(slab, rows, index);
    var span := RowSpan(slab, index);
    RowInside(slab, rows, index);
    shift := A.DeviationShift(span, false);
    sums := A.NO_SUMS;
    NoPixel(row, shift);
    NoneAdded(growing.added);
    for u := 0 to slab.uCount
      invariant growing.Valid() && |growing.counts| == |old(growing.counts)|
      invariant growing.added == old(growing.added) + Finites(row[..u])
      invariant sums.Are(Tally(row[..u]), shift, true)
    {
      RowHas(slab, rows, index, u);
      OneMorePixel(row, u);
      var value := slab.pixels[PixelAt(slab, index, u)];
      A.TakeAdds(sums, Tally(row[..u]), value, shift, true);
      sums := sums.Take(value, shift, true);
      if !value.Finite? {
        continue;
      }
      SpacedAt(spacing, value.value);
      Appends(old(growing.added), Finites(row[..u]), value.value);
      growing.Add(value.value, spacing(value.value));
    }
    assert row[..slab.uCount] == row;
  }

  lemma NoneAdded(added: seq<real>)
    ensures added + [] == added
  {}

  lemma Appends(a: seq<real>, b: seq<real>, x: real)
    ensures (a + b) + [x] == a + (b + [x]) && b + [] == b
  {}

  lemma RowShape(slab: Slab, rows: nat, index: nat)
    requires Readable(slab, rows) && index < rows
    ensures slab.vCount > 0 && |RowPixels(slab, rows, index)| == slab.uCount
  {}

  lemma RowInside(slab: Slab, rows: nat, index: nat)
    requires Readable(slab, rows) && index < rows
    ensures RowSpan(slab, index).Inside() && RowSpan(slab, index).selected.None?
  {
    forall u: nat | u < slab.uCount ensures RowAt(slab, index) + u * slab.strideU < |slab.pixels| {
      assert PixelAt(slab, index, u) < |slab.pixels|;
    }
  }

  lemma RowHas(slab: Slab, rows: nat, index: nat, u: nat)
    requires Readable(slab, rows) && index < rows && u < slab.uCount
    ensures slab.vCount > 0 && PixelAt(slab, index, u) < |slab.pixels|
    ensures RowPixels(slab, rows, index)[u] == slab.pixels[PixelAt(slab, index, u)]
  {}

  // Rows [first, last) of a read into one accumulator.
  method TakeRows(slab: Slab, ghost rows: nat, first: nat, last: nat, into: Accumulator, spacing: real -> real)
    requires Readable(slab, rows) && first <= last <= rows && into.Valid()
    requires Spaced(spacing)
    modifies into, into.growing
    ensures into.Valid() && into.growing == old(into.growing)
    ensures into.taken == old(into.taken) + RowsPixels(slab, rows, first, last)
  {
    hide *;
    AccumulatorMeans(into);
    var numPixels: nat, nanCount: nat, sum, sumSq := 0, 0, 0.0, 0.0;
    var minimum, maximum, spread := PosInf, NegInf, NoSpread;
    ghost var before := into.taken;
    NothingTotalled();
    NoRows(slab, rows, first, before);
    for index := first to last
      invariant into.growing == old(into.growing) && into.growing.Valid() && |into.growing.counts| % 2 == 0
      invariant into.growing.added == Finites(before + RowsPixels(slab, rows, first, index))
      invariant Totalled(numPixels, nanCount, sum, sumSq, minimum, maximum, spread,
                         Tally(RowsPixels(slab, rows, first, index)))
      invariant unchanged(into)
    {
      var sums, shift := TakeRow(slab, rows, index, into.growing, spacing);
      OneMoreRow(slab, rows, first, index, before);
      A.SumsInside(sums, Tally(RowPixels(slab, rows, index)), shift, true);
      RowTotalled(numPixels, nanCount, sum, sumSq, minimum, maximum, spread, RowsPixels(slab, rows, first, index),
                  sums, RowPixels(slab, rows, index), shift);
      spread := spread.Merge(OfSpan(sums.good, shift, sums.distanceSum, sums.distanceSumSq));
      numPixels, nanCount := numPixels + sums.good, nanCount + (sums.taken - sums.good);
      sum, sumSq := sum + sums.sum, sumSq + sums.sumSq;
      minimum, maximum := Min(minimum, sums.smallest), Max(maximum, sums.largest);
    }
    ghost var read := RowsPixels(slab, rows, first, last);
    BothTotalled(into.numPixels, into.nanCount, into.sum, into.sumSq, into.minimum, into.maximum, into.spread, before,
                 numPixels, nanCount, sum, sumSq, minimum, maximum, spread, read);
    into.spread := into.spread.Merge(spread);
    into.numPixels, into.nanCount := into.numPixels + numPixels, into.nanCount + nanCount;
    into.sum, into.sumSq := into.sum + sum, into.sumSq + sumSq;
    into.minimum, into.maximum := Min(into.minimum, minimum), Max(into.maximum, maximum);
    into.taken := before + read;
    ItIsAnAccumulator(into);
  }

  lemma AccumulatorMeans(into: Accumulator)
    requires into.Valid()
    ensures into.growing.Valid() && |into.growing.counts| % 2 == 0 && into.growing.added == Finites(into.taken)
    ensures Totalled(into.numPixels, into.nanCount, into.sum, into.sumSq, into.minimum, into.maximum, into.spread,
                     Tally(into.taken))
  {}

  lemma ItIsAnAccumulator(into: Accumulator)
    requires into.growing.Valid() && |into.growing.counts| % 2 == 0 && into.growing.added == Finites(into.taken)
    requires Totalled(into.numPixels, into.nanCount, into.sum, into.sumSq, into.minimum, into.maximum, into.spread,
                      Tally(into.taken))
    ensures into.Valid()
  {}

  lemma NothingTotalled()
    ensures Totalled(0, 0, 0.0, 0.0, PosInf, NegInf, NoSpread, Tally([]))
  {}

  lemma NoRows(slab: Slab, rows: nat, first: nat, before: seq<Double>)
    requires Readable(slab, rows) && first <= rows
    ensures RowsPixels(slab, rows, first, first) == [] && before + RowsPixels(slab, rows, first, first) == before
  {}

  lemma OneMoreRow(slab: Slab, rows: nat, first: nat, index: nat, before: seq<Double>)
    requires Readable(slab, rows) && first <= index < rows
    ensures var so, row := RowsPixels(slab, rows, first, index), RowPixels(slab, rows, index);
      && RowsPixels(slab, rows, first, index + 1) == so + row
      && Tally(RowsPixels(slab, rows, first, index + 1)) == Tally(so).Plus(Tally(row))
      && Finites(before + RowsPixels(slab, rows, first, index + 1)) == Finites(before + so) + Finites(row)
  {
    hide Totals.Plus, Tally, Finites, RowPixels, Readable;
    var so, row := RowsPixels(slab, rows, first, index), RowPixels(slab, rows, index);
    TallyJoins(so, row);
    TallyJoins(before + so, row);
    assert before + (so + row) == before + so + row;
  }

  // One row folded in.
  lemma RowTotalled(numPixels: nat, nanCount: nat, sum: real, sumSq: real, minimum: Double, maximum: Double,
                    spread: Spread, so: seq<Double>, sums: A.Sums, row: seq<Double>, shift: real)
    requires Totalled(numPixels, nanCount, sum, sumSq, minimum, maximum, spread, Tally(so))
    requires sums.Are(Tally(row), shift, true) && sums.taken >= sums.good
    ensures Totalled(numPixels + sums.good, nanCount + (sums.taken - sums.good), sum + sums.sum, sumSq + sums.sumSq,
                     Min(minimum, sums.smallest), Max(maximum, sums.largest),
                     spread.Merge(OfSpan(sums.good, shift, sums.distanceSum, sums.distanceSumSq)),
                         Tally(so).Plus(Tally(row)))
  {
    hide *;
    TallyIsProper(so);
    TallyIsProper(row);
    RowAlone(sums, row, shift);
    Together(numPixels, nanCount, sum, sumSq, minimum, maximum, spread, Tally(so), sums.good, sums.taken - sums.good,
             sums.sum, sums.sumSq, sums.smallest, sums.largest,
             OfSpan(sums.good, shift, sums.distanceSum, sums.distanceSumSq), Tally(row));
  }

  lemma RowAlone(sums: A.Sums, row: seq<Double>, shift: real)
    requires sums.Are(Tally(row), shift, true) && sums.taken >= sums.good
    ensures Totalled(sums.good, sums.taken - sums.good, sums.sum, sums.sumSq, sums.smallest, sums.largest,
                     OfSpan(sums.good, shift, sums.distanceSum, sums.distanceSumSq), Tally(row))
  {
    TallyIsProper(row);
    A.SpanIsDescribed(sums, Tally(row), shift);
    hide Spread.Describes, OfSpan, Tally, Cauchy, A.Sums.Measure;
  }

  lemma BothTotalled(numPixels: nat, nanCount: nat, sum: real, sumSq: real, minimum: Double, maximum: Double,
                     spread: Spread,
                     before: seq<Double>, numPixels': nat, nanCount': nat, sum': real, sumSq': real, minimum': Double,
                     maximum': Double, spread': Spread, read: seq<Double>)
    requires Totalled(numPixels, nanCount, sum, sumSq, minimum, maximum, spread, Tally(before))
    requires Totalled(numPixels', nanCount', sum', sumSq', minimum', maximum', spread', Tally(read))
    ensures Totalled(numPixels + numPixels', nanCount + nanCount', sum + sum', sumSq + sumSq', Min(minimum, minimum'),
                     Max(maximum, maximum'), spread.Merge(spread'), Tally(before + read))
  {
    hide *;
    TallyIsProper(before);
    TallyIsProper(read);
    TallyJoins(before, read);
    Together(numPixels, nanCount, sum, sumSq, minimum, maximum, spread, Tally(before),
             numPixels', nanCount', sum', sumSq', minimum', maximum', spread', Tally(read));
  }

  // Two sets of running totals put together.
  lemma Together(numPixels: nat, nanCount: nat, sum: real, sumSq: real, minimum: Double, maximum: Double,
                 spread: Spread, t: Totals, numPixels': nat, nanCount': nat, sum': real, sumSq': real, minimum': Double,
                 maximum': Double, spread': Spread, u: Totals)
    requires Totalled(numPixels, nanCount, sum, sumSq, minimum, maximum, spread, t) && Proper(t)
    requires Totalled(numPixels', nanCount', sum', sumSq', minimum', maximum', spread', u) && Proper(u)
    ensures Totalled(numPixels + numPixels', nanCount + nanCount', sum + sum', sumSq + sumSq', Min(minimum, minimum'),
                     Max(maximum, maximum'), spread.Merge(spread'), t.Plus(u))
  {
    hide Spread.Describes, Spread.Merge, Proper;
    ProperSums(t);
    ProperSums(u);
    MergeDescribes(spread, spread', t.good, t.sum, t.sumSq, u.good, u.sum, u.sumSq);
  }

  // ---- A read, divided into tasks ----

  // Every task's, each with a histogram nobody else has.
  ghost predicate AllValid(accumulators: seq<Accumulator>)
    reads accumulators, set i | 0 <= i < |accumulators| :: accumulators[i].growing
  {
    && (forall i :: 0 <= i < |accumulators| ==> accumulators[i].Valid())
    && (forall i, j :: 0 <= i < j < |accumulators| ==>
          accumulators[i] != accumulators[j] && accumulators[i].growing != accumulators[j].growing)
  }

  ghost function TakenBy(accumulators: seq<Accumulator>): (takens: seq<seq<Double>>)
    reads accumulators
    ensures |takens| == |accumulators| && forall i :: 0 <= i < |takens| ==> takens[i] == accumulators[i].taken
  {
    seq(|accumulators|, i requires 0 <= i < |accumulators| reads accumulators => accumulators[i].taken)
  }

  // What all of them come to together.
  ghost function TallyAll(takens: seq<seq<Double>>): Totals {
    if takens == [] then Nothing else TallyAll(takens[..|takens| - 1]).Plus(Tally(takens[|takens| - 1]))
  }

  ghost function Share(slab: Slab, rows: nat, tasks: nat, task: nat): seq<Double>
    requires Readable(slab, rows)
  {
    if task >= tasks then [] else if tasks <= 1 then RowsPixels(slab, rows, 0, rows)
    else RowsPixels(slab, rows, TaskRows(task, tasks, rows).first, TaskRows(task, tasks, rows).last)
  }

  // The tasks' rows are the read's.
  lemma {:induction false} SharesAreTheRead(slab: Slab, rows: nat, tasks: nat, before: seq<seq<Double>>,
                                            after: seq<seq<Double>>, n: nat)
    requires Readable(slab, rows) && 0 < tasks <= |before| == |after| && n <= |before|
    requires forall i :: 0 <= i < |before| ==> after[i] == before[i] + Share(slab, rows, tasks, i)
    ensures TallyAll(after[..n])
         == TallyAll(before[..n]).Plus(Tally(RowsPixels(slab, rows, 0, RowsUpTo(rows, tasks, n))))
  {
    hide Totals.Plus, Tally, RowsPixels, Readable, Finites;
    if n == 0 {
      NoRows(slab, rows, 0, []);
      NothingTallied();
      assert after[..0] == [] && before[..0] == [];
      PlusLaws(Nothing, Nothing, Nothing);
    } else {
      SharesAreTheRead(slab, rows, tasks, before, after, n - 1);
      assert after[..n][..n - 1] == after[..n - 1] && before[..n][..n - 1] == before[..n - 1];
      TallyJoins(before[n - 1], Share(slab, rows, tasks, n - 1));
      ShareFollows(slab, rows, tasks, n);
      Regroup(TallyAll(before[..n - 1]), Tally(RowsPixels(slab, rows, 0, RowsUpTo(rows, tasks, n - 1))),
              Tally(before[n - 1]), Tally(Share(slab, rows, tasks, n - 1)));
    }
  }

  lemma NothingTallied()
    ensures Tally([]) == Nothing
  {}

  lemma Regroup(a: Totals, b: Totals, c: Totals, d: Totals)
    ensures a.Plus(b).Plus(c.Plus(d)) == a.Plus(c).Plus(b.Plus(d))
  {
    hide Totals.Plus;
    PlusLaws(a, b, c.Plus(d));
    PlusLaws(b, c, d);
    PlusLaws(c, b, d);
    PlusLaws(a, c, b.Plus(d));
  }

  // The rows the first n tasks take between them.
  ghost function RowsUpTo(rows: nat, tasks: nat, n: nat): (last: nat)
    requires tasks > 0
    ensures last <= rows
  {
    if n == 0 then 0 else if n >= tasks || tasks <= 1 then rows else TaskRows(n - 1, tasks, rows).last
  }

  lemma ShareFollows(slab: Slab, rows: nat, tasks: nat, n: nat)
    requires Readable(slab, rows) && 0 < tasks && 0 < n
    ensures Tally(RowsPixels(slab, rows, 0, RowsUpTo(rows, tasks, n)))
         == Tally(RowsPixels(slab, rows, 0, RowsUpTo(rows, tasks, n - 1))).Plus(Tally(Share(slab, rows, tasks, n - 1)))
  {
    hide Totals.Plus, Tally, RowsPixels, Readable, Finites;
    var a, b := RowsUpTo(rows, tasks, n - 1), RowsUpTo(rows, tasks, n);
    TasksFollow(if n >= 2 then n - 2 else 0, tasks, rows);
    NothingTallied();
    if n - 1 < tasks {
      RowsJoin(slab, rows, 0, a, b);
      NoRows(slab, rows, 0, []);
      TallyJoins(RowsPixels(slab, rows, 0, a), RowsPixels(slab, rows, a, b));
    } else {
      PlusLaws(Tally(RowsPixels(slab, rows, 0, a)), Nothing, Nothing);
    }
  }

  lemma AllValidMeans(accumulators: seq<Accumulator>)
    requires AllValid(accumulators)
    ensures forall i :: 0 <= i < |accumulators| ==> accumulators[i].Valid()
    ensures forall i, j :: 0 <= i < j < |accumulators| ==>
              accumulators[i] != accumulators[j] && accumulators[i].growing != accumulators[j].growing
  {}

  lemma StillAllValid(accumulators: seq<Accumulator>)
    requires forall i :: 0 <= i < |accumulators| ==> accumulators[i].Valid()
    requires forall i, j :: 0 <= i < j < |accumulators| ==>
               accumulators[i] != accumulators[j] && accumulators[i].growing != accumulators[j].growing
    ensures AllValid(accumulators)
  {}

  lemma ShareIs(slab: Slab, rows: nat, tasks: nat, task: nat)
    requires Readable(slab, rows) && task < tasks
    ensures Share(slab, rows, tasks, task)
         == if tasks <= 1 then RowsPixels(slab, rows, 0, rows)
            else RowsPixels(slab, rows, TaskRows(task, tasks, rows).first, TaskRows(task, tasks, rows).last)
    ensures tasks > 1 && TaskRows(task, tasks, rows).first == TaskRows(task, tasks, rows).last ==>
              Share(slab, rows, tasks, task) == []
  {}

  // One task's rows, into its own accumulator. A task with no rows is not called at all.
  method AddTask(accumulators: seq<Accumulator>, slab: Slab, rows: nat, tasks: nat, task: nat, spacing: real -> real)
    requires AllValid(accumulators) && task < tasks <= |accumulators| && Readable(slab, rows) && Spaced(spacing)
    modifies accumulators[task], accumulators[task].growing
    ensures AllValid(accumulators) && accumulators[task].growing == old(accumulators[task].growing)
    ensures accumulators[task].taken == old(accumulators[task].taken) + Share(slab, rows, tasks, task)
  {
    hide *;
    AllValidMeans(accumulators);
    ShareIs(slab, rows, tasks, task);
    if tasks <= 1 {
      TakeRows(slab, rows, 0, rows, accumulators[task], spacing);
    } else {
      var share := TaskRows(task, tasks, rows);
      if share.first != share.last {
        TakeRows(slab, rows, share.first, share.last, accumulators[task], spacing);
      } else {
        assert accumulators[task].taken + [] == accumulators[task].taken;
      }
    }
    StillAllValid(accumulators);
  }

  // Every pixel of one read, whichever task is claimed next.
  method AddSlab(accumulators: seq<Accumulator>, slab: Slab, rows: nat, tasks: nat, todo: set<nat>,
                 spacing: real -> real)
    requires AllValid(accumulators) && 0 < tasks <= |accumulators| && Readable(slab, rows) && Spaced(spacing)
    requires forall task: nat :: task in todo <==> task < tasks
    modifies set i | 0 <= i < |accumulators| :: accumulators[i]
    modifies set i | 0 <= i < |accumulators| :: accumulators[i].growing
    ensures AllValid(accumulators)
    ensures forall i: nat :: i < |accumulators| ==> accumulators[i].growing == old(accumulators[i].growing)
    ensures forall i: nat :: i < |accumulators| ==>
              accumulators[i].taken == old(accumulators[i].taken) + Share(slab, rows, tasks, i)
    ensures TallyAll(TakenBy(accumulators))
         == TallyAll(old(TakenBy(accumulators))).Plus(Tally(RowsPixels(slab, rows, 0, rows)))
  {
    hide *;
    var left := todo;
    ghost var before := TakenBy(accumulators);
    TakenAre(accumulators);
    NoneShared(slab, rows, tasks, before, todo);
    while left != {}
      invariant forall task: nat :: task in left ==> task < tasks
      invariant AllValid(accumulators)
      invariant forall i: nat :: i < |accumulators| ==> accumulators[i].growing == old(accumulators[i].growing)
      invariant forall i: nat :: i < |accumulators| ==>
                  accumulators[i].taken == before[i] + if i in left then [] else Share(slab, rows, tasks, i)
      decreases left
    {
      var task: nat :| task in left;
      AllValidMeans(accumulators);
      AddTask(accumulators, slab, rows, tasks, task, spacing);
      assert before[task] + [] == before[task];
      left := left - {task};
    }
    TakenAre(accumulators);
    ghost var after := TakenBy(accumulators);
    SharesAreTheRead(slab, rows, tasks, before, after, |before|);
    AllShared(rows, tasks, |before|);
    assert after[..|before|] == after && before[..|before|] == before;
  }

  lemma TakenAre(accumulators: seq<Accumulator>)
    ensures |TakenBy(accumulators)| == |accumulators|
    ensures forall i :: 0 <= i < |accumulators| ==> TakenBy(accumulators)[i] == accumulators[i].taken
  {}

  lemma NoneShared(slab: Slab, rows: nat, tasks: nat, before: seq<seq<Double>>, todo: set<nat>)
    requires Readable(slab, rows) && forall task: nat :: task in todo <==> task < tasks
    ensures forall i: nat :: i < |before| ==>
              before[i] == before[i] + if i in todo then [] else Share(slab, rows, tasks, i)
  {
    forall i: nat | i < |before|
      ensures before[i] == before[i] + if i in todo then [] else Share(slab, rows, tasks, i) {
      assert before[i] + [] == before[i];
    }
  }

  lemma AllShared(rows: nat, tasks: nat, n: nat)
    requires 0 < tasks <= n
    ensures RowsUpTo(rows, tasks, n) == rows
  {}

  // ---- The answer ----

  datatype CubeTotals = CubeTotals(numPixels: nat, nanCount: nat, sum: real, sumSq: real, min: Double, max: Double,
                                   sumSqDev: real)

  // The totals that stand for some pixels: the extrema are NaN exactly when nothing finite was read.
  ghost predicate AnswersFor(totals: CubeTotals, t: Totals) {
    && totals.numPixels == t.good && totals.nanCount == t.bad && totals.sum == t.sum && totals.sumSq == t.sumSq
    && totals.min == Report(Minimum, t) && totals.max == Report(Maximum, t)
    && Finite(totals.sumSqDev) == Report(SumSqDev, t)
  }

  // Every accumulator's totals together.
  method CollectTotals(accumulators: seq<Accumulator>) returns (totals: CubeTotals)
    requires AllValid(accumulators)
    ensures AnswersFor(totals, TallyAll(TakenBy(accumulators)))
  {
    hide *;
    var numPixels: nat, nanCount: nat, sum, sumSq := 0, 0, 0.0, 0.0;
    var smallest, largest, spread := PosInf, NegInf, NoSpread;
    ghost var takens := TakenBy(accumulators);
    TakenAre(accumulators);
    NothingTotalledAll();
    assert takens[..0] == [];
    for i := 0 to |accumulators|
      invariant Totalled(numPixels, nanCount, sum, sumSq, smallest, largest, spread, TallyAll(takens[..i]))
      invariant Proper(TallyAll(takens[..i]))
    {
      AllValidMeans(accumulators);
      var a := accumulators[i];
      AccumulatorMeans(a);
      OneMoreTotalled(numPixels, nanCount, sum, sumSq, smallest, largest, spread, takens, i,
                      a.numPixels, a.nanCount, a.sum, a.sumSq, a.minimum, a.maximum, a.spread);
      spread := spread.Merge(a.spread);
      numPixels, nanCount := numPixels + a.numPixels, nanCount + a.nanCount;
      sum, sumSq := sum + a.sum, sumSq + a.sumSq;
      smallest, largest := Min(smallest, a.minimum), Max(largest, a.maximum);
    }
    assert takens[..|accumulators|] == takens;
    totals := CubeTotals(numPixels, nanCount, sum, sumSq, if numPixels == 0 then NaN else smallest,
                         if numPixels == 0 then NaN else largest, spread.sumSqDev);
    TotalsAnswer(numPixels, nanCount, sum, sumSq, smallest, largest, spread, TallyAll(takens), totals);
  }

  lemma NothingTotalledAll()
    ensures Totalled(0, 0, 0.0, 0.0, PosInf, NegInf, NoSpread, TallyAll([])) && Proper(TallyAll([]))
  {}

  lemma OneMoreTotalled(numPixels: nat, nanCount: nat, sum: real, sumSq: real, minimum: Double, maximum: Double,
                        spread: Spread,
                        takens: seq<seq<Double>>, i: nat, numPixels': nat, nanCount': nat, sum': real, sumSq': real,
                        minimum': Double, maximum': Double, spread': Spread)
    requires i < |takens| && Proper(TallyAll(takens[..i]))
    requires Totalled(numPixels, nanCount, sum, sumSq, minimum, maximum, spread, TallyAll(takens[..i]))
    requires Totalled(numPixels', nanCount', sum', sumSq', minimum', maximum', spread', Tally(takens[i]))
    ensures Totalled(numPixels + numPixels', nanCount + nanCount', sum + sum', sumSq + sumSq', Min(minimum, minimum'),
                     Max(maximum, maximum'), spread.Merge(spread'), TallyAll(takens[..i + 1]))
    ensures Proper(TallyAll(takens[..i + 1]))
  {
    hide *;
    var t, u := TallyAll(takens[..i]), Tally(takens[i]);
    OneMoreTallied(takens, i);
    TallyIsProper(takens[i]);
    PlusIsProper(t, u);
    Together(numPixels, nanCount, sum, sumSq, minimum, maximum, spread, t,
             numPixels', nanCount', sum', sumSq', minimum', maximum', spread', u);
  }

  lemma OneMoreTallied(takens: seq<seq<Double>>, i: nat)
    requires i < |takens|
    ensures TallyAll(takens[..i + 1]) == TallyAll(takens[..i]).Plus(Tally(takens[i]))
  {
    assert takens[..i + 1][..i] == takens[..i];
  }

  lemma ProperSums(t: Totals)
    requires Proper(t)
    ensures t.good == 0 ==> t.sum == 0.0 && t.sumSq == 0.0
  {}

  lemma TotalsAnswer(numPixels: nat, nanCount: nat, sum: real, sumSq: real, smallest: Double, largest: Double,
                     spread: Spread, t: Totals, totals: CubeTotals)
    requires Totalled(numPixels, nanCount, sum, sumSq, smallest, largest, spread, t)
    requires totals == CubeTotals(numPixels, nanCount, sum, sumSq, if numPixels == 0 then NaN else smallest,
                                  if numPixels == 0 then NaN else largest, spread.sumSqDev)
    ensures AnswersFor(totals, t)
  {}

  function RealOr(d: Double): real {
    if d.Finite? then d.value else 0.0
  }

  // One provisional histogram on the grid of `bins` bins between the extremes: each of its own bins shared
  // fairly between those it overlaps, `split` telling how; or all of it in the first, when one value is all
  // there is.
  ghost predicate OnGrid(part: seq<nat>, split: seq<seq<nat>>, counts: seq<nat>, from: real, step: real, bins: nat,
                         lower: real, upper: real)
    requires bins > 0 && step > 0.0
  {
    && |part| == bins && GrowingHistograms.Sum(part) == GrowingHistograms.Sum(counts)
    && if lower < upper then
         && (upper - lower) / bins as real > 0.0
         && Aggregated(part, split, counts, |counts|, from, step, lower, (upper - lower) / bins as real)
       else part[0] == GrowingHistograms.Sum(counts)
  }

  ghost predicate AllOnGrid(parts: seq<seq<nat>>, splits: seq<seq<seq<nat>>>, accumulators: seq<Accumulator>, n: nat,
                            bins: nat, lower: real, upper: real)
    requires bins > 0
    reads accumulators, set i | 0 <= i < |accumulators| :: accumulators[i].growing
  {
    && n <= |accumulators| && |parts| == |splits| == n
    && forall i :: 0 <= i < n ==>
         && accumulators[i].growing.width > 0.0
         && OnGrid(parts[i], splits[i], accumulators[i].growing.counts, accumulators[i].growing.lower,
                   accumulators[i].growing.width, bins, lower, upper)
  }

  // The answer is bin by bin what each of the parts put there.
  ghost predicate SumOfParts(counts: seq<nat>, parts: seq<seq<nat>>) {
    && (forall i :: 0 <= i < |parts| ==> |parts[i]| == |counts|)
    && forall b: nat :: b < |counts| ==> counts[b] == Column(parts, b)
  }

  lemma NoParts(counts: seq<nat>)
    requires forall b :: 0 <= b < |counts| ==> counts[b] == 0
    ensures SumOfParts(counts, [])
  {}

  lemma OneMorePart(counts: seq<nat>, parts: seq<seq<nat>>, part: seq<nat>, added: seq<nat>)
    requires SumOfParts(counts, parts) && |part| == |counts| == |added|
    requires forall b :: 0 <= b < |counts| ==> added[b] == counts[b] + part[b]
    ensures SumOfParts(added, parts + [part])
  {
    var more := parts + [part];
    assert more[..|parts|] == parts;
  }

  lemma ItIsOnGrid(part: seq<nat>, split: seq<seq<nat>>, counts: seq<nat>, from: real, step: real, bins: nat,
                   lower: real, upper: real)
    requires bins > 0 && step > 0.0 && |part| == bins && GrowingHistograms.Sum(part) == GrowingHistograms.Sum(counts)
    requires lower < upper ==>
               (upper - lower) / bins as real > 0.0
               && Aggregated(part, split, counts, |counts|, from, step, lower, (upper - lower) / bins as real)
    requires !(lower < upper) ==> part[0] == GrowingHistograms.Sum(counts)
    ensures OnGrid(part, split, counts, from, step, bins, lower, upper)
  {
    hide Aggregated;
  }

  lemma OneMoreOnGrid(parts: seq<seq<nat>>, splits: seq<seq<seq<nat>>>, accumulators: seq<Accumulator>, n: nat,
                      bins: nat, lower: real, upper: real, part: seq<nat>, split: seq<seq<nat>>)
    requires bins > 0 && n < |accumulators| && AllOnGrid(parts, splits, accumulators, n, bins, lower, upper)
    requires accumulators[n].growing.width > 0.0
    requires OnGrid(part, split, accumulators[n].growing.counts, accumulators[n].growing.lower,
                    accumulators[n].growing.width, bins, lower, upper)
    ensures AllOnGrid(parts + [part], splits + [split], accumulators, n + 1, bins, lower, upper)
  {
    hide OnGrid;
  }

  lemma NoneOnGrid(accumulators: seq<Accumulator>, bins: nat, lower: real, upper: real)
    requires bins > 0
    ensures AllOnGrid([], [], accumulators, 0, bins, lower, upper)
  {}

  // What the accumulators come to together: the totals of all they took, and counts that hold every
  // finite pixel once, for every split into tasks. `parts` is what each accumulator puts in each bin.
  method Collect(accumulators: seq<Accumulator>, bins: nat)
    returns (totals: CubeTotals, counts: seq<nat>, ghost parts: seq<seq<nat>>, ghost splits: seq<seq<seq<nat>>>)
    requires AllValid(accumulators) && bins > 0
    ensures AnswersFor(totals, TallyAll(TakenBy(accumulators)))
    ensures |counts| == bins && GrowingHistograms.Sum(counts) == totals.numPixels
    ensures SumOfParts(counts, parts)
    ensures totals.numPixels > 0 ==>
              AllOnGrid(parts, splits, accumulators, |accumulators|, bins, RealOr(totals.min), RealOr(totals.max))
  {
    hide *;
    totals := CollectTotals(accumulators);
    counts, parts, splits := seq(bins, _ => 0), [], [];
    ghost var takens := TakenBy(accumulators);
    TakenAre(accumulators);
    NumberOfPixels(totals, TallyAll(takens));
    SumZeros(counts);
    NoParts(counts);
    if totals.numPixels == 0 {
      return;
    }
    var lower, upper := RealOr(totals.min), RealOr(totals.max);
    NothingTotalledAll();
    NoneOnGrid(accumulators, bins, lower, upper);
    assert takens[..0] == [];
    NoneGood();
    for i := 0 to |accumulators|
      invariant |counts| == bins && GrowingHistograms.Sum(counts) == TallyAll(takens[..i]).good
      invariant SumOfParts(counts, parts) && AllOnGrid(parts, splits, accumulators, i, bins, lower, upper)
    {
      AllValidMeans(accumulators);
      var a := accumulators[i];
      AccumulatorMeans(a);
      a.growing.ValidMeans();
      a.growing.TotalIsAdded();
      var part;
      ghost var split;
      part, split := Aggregate(a.growing.counts, a.growing.lower, a.growing.width, bins, lower, upper);
      ItIsOnGrid(part, split, a.growing.counts, a.growing.lower, a.growing.width, bins, lower, upper);
      OneMoreOnGrid(parts, splits, accumulators, i, bins, lower, upper, part, split);
      var added := AddedTo(counts, part);
      OneMorePart(counts, parts, part, added);
      SumsAdd(counts, part, added);
      counts, parts, splits := added, parts + [part], splits + [split];
      OneMoreGood(takens, i);
    }
    assert takens[..|accumulators|] == takens;
  }

  method AddedTo(counts: seq<nat>, part: seq<nat>) returns (added: seq<nat>)
    requires |part| == |counts|
    ensures |added| == |counts| && forall b :: 0 <= b < |counts| ==> added[b] == counts[b] + part[b]
  {
    added := counts;
    for bin := 0 to |counts|
      invariant |added| == |counts|
      invariant forall b :: 0 <= b < |counts| ==> added[b] == counts[b] + if b < bin then part[b] else 0
    {
      added := added[bin := added[bin] + part[bin]];
    }
  }

  lemma NumberOfPixels(totals: CubeTotals, t: Totals)
    requires AnswersFor(totals, t)
    ensures totals.numPixels == t.good
  {}

  lemma NoneGood()
    ensures TallyAll([]).good == 0
  {}

  lemma OneMoreGood(takens: seq<seq<Double>>, i: nat)
    requires i < |takens|
    ensures TallyAll(takens[..i + 1]).good == TallyAll(takens[..i]).good + |Finites(takens[i])|
  {
    assert takens[..i + 1][..i] == takens[..i];
    TallyIsProper(takens[i]);
  }
}
