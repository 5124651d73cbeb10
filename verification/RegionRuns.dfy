// A region's raster as runs of selected pixels: src/reduce/region_runs.cc.
//
// A line is a row or a column of the raster as booleans. The flattened runs of a line, begin, end,
// begin, end, ..., are its edges: the positions where selected and unselected meet.

module RegionRuns {
  import opened Wrappers
  import opened Grouping
  import B = ChunkBlocks

  const LEAST_PIXELS_PER_RUN := 16
  const UINT32_MAX := 0xFFFF_FFFF
  const LOW_BITS: bv64 := 0x0101010101010101
  const HIGH_BITS: bv64 := 0x8080808080808080

  datatype Runs = Runs(runs: seq<nat>, offsets: seq<nat>)

  // ---- Eight bytes at once ----

  function Pack(b0: Byte, b1: Byte, b2: Byte, b3: Byte, b4: Byte, b5: Byte, b6: Byte, b7: Byte): bv64 {
    (b0 as bv64) | ((b1 as bv64) << 8) | ((b2 as bv64) << 16) | ((b3 as bv64) << 24)
    | ((b4 as bv64) << 32) | ((b5 as bv64) << 40) | ((b6 as bv64) << 48) | ((b7 as bv64) << 56)
  }

  function Word(b: seq<Byte>): bv64
    requires |b| == 8
  {
    Pack(b[0], b[1], b[2], b[3], b[4], b[5], b[6], b[7])
  }

  // Eight mask bytes tested together: true when each of them is non-zero.
  predicate NoZeroByte(word: bv64) {
    (word - LOW_BITS) & !word & HIGH_BITS == 0
  }

  lemma PackNoZeroByte(b0: Byte, b1: Byte, b2: Byte, b3: Byte, b4: Byte, b5: Byte, b6: Byte, b7: Byte)
    ensures NoZeroByte(Pack(b0, b1, b2, b3, b4, b5, b6, b7))
       <==> b0 != 0 && b1 != 0 && b2 != 0 && b3 != 0 && b4 != 0 && b5 != 0 && b6 != 0 && b7 != 0
  {}

  lemma PackSame(b0: Byte, b1: Byte, b2: Byte, b3: Byte, b4: Byte, b5: Byte, b6: Byte, b7: Byte,
                 c0: Byte, c1: Byte, c2: Byte, c3: Byte, c4: Byte, c5: Byte, c6: Byte, c7: Byte)
    ensures Pack(b0, b1, b2, b3, b4, b5, b6, b7) == Pack(c0, c1, c2, c3, c4, c5, c6, c7)
       <==> b0 == c0 && b1 == c1 && b2 == c2 && b3 == c3 && b4 == c4 && b5 == c5 && b6 == c6 && b7 == c7
  {}

  lemma PackZero(b0: Byte, b1: Byte, b2: Byte, b3: Byte, b4: Byte, b5: Byte, b6: Byte, b7: Byte)
    ensures Pack(b0, b1, b2, b3, b4, b5, b6, b7) == 0
       <==> b0 == 0 && b1 == 0 && b2 == 0 && b3 == 0 && b4 == 0 && b5 == 0 && b6 == 0 && b7 == 0
  {}

  lemma WordIs(b: seq<Byte>)
    requires |b| == 8
    ensures NoZeroByte(Word(b)) <==> forall i :: 0 <= i < 8 ==> b[i] != 0
    ensures Word(b) == 0 <==> forall i :: 0 <= i < 8 ==> b[i] == 0
  {
    hide Pack, NoZeroByte;
    PackNoZeroByte(b[0], b[1], b[2], b[3], b[4], b[5], b[6], b[7]);
    PackZero(b[0], b[1], b[2], b[3], b[4], b[5], b[6], b[7]);
  }

  lemma WordsAgree(a: seq<Byte>, b: seq<Byte>)
    requires |a| == 8 && |b| == 8
    ensures Word(a) == Word(b) <==> forall i :: 0 <= i < 8 ==> a[i] == b[i]
  {
    hide Pack;
    PackSame(a[0], a[1], a[2], a[3], a[4], a[5], a[6], a[7], b[0], b[1], b[2], b[3], b[4], b[5], b[6], b[7]);
  }

  // ---- Lines and their edges ----

  predicate On(line: seq<bool>, x: int) {
    0 <= x < |line| && line[x]
  }

  // The positions below k where the line switches between unselected and selected, in order. What
  // lies outside the line is unselected.
  ghost function Edges(line: seq<bool>, k: nat): seq<nat>
  {
    if k == 0 then []
    else Edges(line, k - 1) + if On(line, k - 1) != On(line, k - 2) then [k - 1] else []
  }

  ghost function AllEdges(line: seq<bool>): seq<nat> {
    Edges(line, |line| + 1)
  }

  // The edges of the first n lines, and how they are stored.
  ghost function Flat(lines: seq<seq<bool>>, n: nat): seq<nat>
    requires n <= |lines|
  {
    if n == 0 then [] else Flat(lines, n - 1) + AllEdges(lines[n - 1])
  }

  ghost function TotalRuns(lines: seq<seq<bool>>): nat {
    |Flat(lines, |lines|)| / 2
  }

  // The encoding of a raster's lines, whichever way it is found.
  ghost predicate Encodes(made: Runs, lines: seq<seq<bool>>) {
    && made.runs == Flat(lines, |lines|)
    && OffsetsOf(made.offsets, lines, |lines|)
  }

  // Where each of the first n lines begins, counted in runs, and where they end.
  ghost predicate OffsetsOf(offsets: seq<nat>, lines: seq<seq<bool>>, n: nat)
    requires n <= |lines|
  {
    |offsets| == n + 1 && forall i :: 0 <= i <= n ==> offsets[i] == |Flat(lines, i)| / 2
  }

  // Whether the line is selected before k is whether an odd number of edges came before it.
  lemma {:induction false} EdgesParity(line: seq<bool>, k: nat)
    ensures On(line, k - 1) <==> |Edges(line, k)| % 2 == 1
  {
    if k > 0 { EdgesParity(line, k - 1); }
  }

  lemma {:induction false} EdgesAscend(line: seq<bool>, k: nat)
    ensures forall i :: 0 <= i < |Edges(line, k)| ==> Edges(line, k)[i] < k
    ensures forall i, j :: 0 <= i < j < |Edges(line, k)| ==> Edges(line, k)[i] < Edges(line, k)[j]
  {
    if k > 0 { EdgesAscend(line, k - 1); }
  }

  // The edges alternate between beginning a run and ending one.
  lemma {:induction false} EdgesAlternate(line: seq<bool>, k: nat)
    ensures forall i :: 0 <= i < |Edges(line, k)| ==>
              On(line, Edges(line, k)[i]) == (i % 2 == 0) && On(line, Edges(line, k)[i] as int - 1) == (i % 2 == 1)
  {
    if k > 0 {
      EdgesAlternate(line, k - 1);
      EdgesParity(line, k - 1);
    }
  }

  lemma AllEdgesPair(line: seq<bool>)
    ensures |AllEdges(line)| % 2 == 0
  {
    EdgesParity(line, |line| + 1);
  }

  // Selected is being inside one of the runs [e[2i], e[2i + 1]).
  ghost predicate InRun(edges: seq<nat>, i: int, x: nat) {
    0 <= 2 * i && 2 * i + 1 < |edges| && edges[2 * i] <= x < edges[2 * i + 1]
  }

  ghost predicate InSomeRun(edges: seq<nat>, x: nat) {
    exists i :: InRun(edges, i, x)
  }

  // From one edge to the next nothing changes.
  lemma {:induction false} SteadyBetween(line: seq<bool>, k: nat, x: nat, i: nat)
    requires x < k && i < |Edges(line, k)| && Edges(line, k)[i] <= x
    requires i + 1 < |Edges(line, k)| ==> x < Edges(line, k)[i + 1]
    ensures On(line, x) <==> i % 2 == 0
  {
    EdgesAscend(line, k);
    if x < k - 1 {
      SteadyBetween(line, k - 1, x, i);
    } else {
      EdgesParity(line, k);
    }
  }

  lemma NoneBefore(line: seq<bool>, k: nat, x: nat)
    requires x < k && (|Edges(line, k)| > 0 ==> x < Edges(line, k)[0])
    ensures !On(line, x)
  {
    EdgesGrow(line, x + 1, k);
    EdgesAscend(line, x + 1);
    EdgesParity(line, x + 1);
  }

  lemma SelectedIsInARun(line: seq<bool>, x: nat) returns (i: nat)
    requires On(line, x)
    ensures InRun(AllEdges(line), i, x)
  {
    var e, k := AllEdges(line), |line| + 1;
    EdgesAscend(line, k);
    hide Edges;
    if |e| == 0 || x < e[0] { NoneBefore(line, k, x); }
    var last := LastAtMost(e, x);
    SteadyBetween(line, k, x, last);
    AllEdgesPair(line);
    i := last / 2;
  }

  // The runs of a line select exactly its selected pixels.
  lemma RunsAreTheLine(line: seq<bool>, x: nat)
    ensures On(line, x) <==> InSomeRun(AllEdges(line), x)
  {
    hide Edges;
    if On(line, x) {
      var i := SelectedIsInARun(line, x);
    }
    if i :| InRun(AllEdges(line), i, x) {
      AllEdgesPair(line);
      EdgesAscend(line, |line| + 1);
      SteadyBetween(line, |line| + 1, x, 2 * i);
    }
  }

  // Each run is maximal: the pixel before it and the pixel after it are unselected, and it ends
  // before the next begins.
  lemma RunsAreMaximal(line: seq<bool>, i: nat)
    requires 2 * i + 1 < |AllEdges(line)|
    ensures !On(line, AllEdges(line)[2 * i] as int - 1) && !On(line, AllEdges(line)[2 * i + 1])
    ensures AllEdges(line)[2 * i] < AllEdges(line)[2 * i + 1] <= |line|
    ensures 2 * i + 2 < |AllEdges(line)| ==> AllEdges(line)[2 * i + 1] < AllEdges(line)[2 * i + 2]
  {
    EdgesAlternate(line, |line| + 1);
    EdgesAscend(line, |line| + 1);
  }

  // The last edge at or before x.
  lemma {:induction false} LastAtMost(e: seq<nat>, x: nat) returns (i: nat)
    requires |e| > 0 && e[0] <= x
    requires forall a, b :: 0 <= a < b < |e| ==> e[a] < e[b]
    ensures i < |e| && e[i] <= x && (i + 1 < |e| ==> x < e[i + 1])
  {
    if e[|e| - 1] <= x {
      i := |e| - 1;
    } else {
      i := LastAtMost(e[..|e| - 1], x);
    }
  }

  lemma {:induction false} FlatGrows(lines: seq<seq<bool>>, a: nat, b: nat)
    requires a <= b <= |lines|
    ensures Flat(lines, a) <= Flat(lines, b)
    ensures |Flat(lines, b)| % 2 == 0
  {
    FlatIsEven(lines, b);
    hide AllEdges;
    if a < b { FlatGrows(lines, a, b - 1); }
  }

  lemma {:induction false} FlatIsEven(lines: seq<seq<bool>>, n: nat)
    requires n <= |lines|
    ensures |Flat(lines, n)| % 2 == 0
  {
    if n > 0 {
      AllEdgesPair(lines[n - 1]);
      hide AllEdges;
      FlatIsEven(lines, n - 1);
    }
  }

  // What a placed region's walk reads: the runs of one line are the stretch between its offsets.
  lemma LineRuns(made: Runs, lines: seq<seq<bool>>, n: nat)
    requires Encodes(made, lines) && n < |lines|
    ensures made.offsets[n] <= made.offsets[n + 1] && 2 * made.offsets[n + 1] <= |made.runs|
    ensures made.runs[2 * made.offsets[n]..2 * made.offsets[n + 1]] == AllEdges(lines[n])
  {
    FlatGrows(lines, n + 1, |lines|);
    FlatGrows(lines, n, n);
    FlatGrows(lines, n + 1, n + 1);
    Stretch(Flat(lines, n), AllEdges(lines[n]), Flat(lines, n + 1), made.runs);
  }

  lemma Stretch(a: seq<nat>, e: seq<nat>, b: seq<nat>, all: seq<nat>)
    requires b == a + e && b <= all
    ensures all[|a|..|b|] == e
  {}

  // Nothing changes over a stretch of bytes that are selected alike.
  lemma {:induction false} NoEdges(line: seq<bool>, from: nat, to: nat)
    requires from <= to
    requires forall x :: from <= x < to ==> On(line, x) == On(line, from - 1)
    ensures Edges(line, to) == Edges(line, from)
  {
    if from < to { NoEdges(line, from, to - 1); }
  }

  // ---- Rasters ----

  predicate Sel(raster: seq<Byte>, width: nat, x: nat, y: nat) {
    var at := y * width + x;
    at < |raster| && raster[at] != 0
  }

  ghost function Row(raster: seq<Byte>, width: nat, y: nat): seq<bool> {
    seq(width, x requires x >= 0 => Sel(raster, width, x, y))
  }

  ghost function Column(raster: seq<Byte>, width: nat, height: nat, x: nat): seq<bool> {
    seq(height, y requires y >= 0 => Sel(raster, width, x, y))
  }

  // The lines along u: the rows when u is x, the columns when it is y.
  ghost function Lines(raster: seq<Byte>, width: nat, height: nat, uIsX: bool): seq<seq<bool>> {
    if uIsX then seq(height, y requires y >= 0 => Row(raster, width, y))
    else seq(width, x requires x >= 0 => Column(raster, width, height, x))
  }

  lemma RowInside(width: nat, height: nat, y: nat)
    requires y < height
    ensures 0 <= y * width && y * width + width <= width * height
  {
    B.MulMono(y + 1, height, width);
  }

  // The bytes of row y, and none past the last.
  function RowBytes(raster: seq<Byte>, width: nat, height: nat, y: nat): (row: seq<Byte>)
    requires |raster| == width * height
    ensures |row| == width
  {
    if y < height then
      RowInside(width, height, y);
      raster[y * width..y * width + width]
    else seq(width, _ => 0)
  }

  lemma RowBytesAreTheRow(raster: seq<Byte>, width: nat, height: nat, y: nat)
    requires |raster| == width * height && y < height
    ensures Bits(RowBytes(raster, width, height, y)) == Row(raster, width, y)
  {
    RowInside(width, height, y);
  }

  // ---- Along x ----

  ghost function Bits(row: seq<Byte>): seq<bool> {
    seq(|row|, i requires 0 <= i < |row| => row[i] != 0)
  }

  // One row of bytes, onto the end of the runs.
  method EncodeRow(row: seq<Byte>, before: seq<nat>) returns (runs: seq<nat>)
    ensures runs == before + AllEdges(Bits(row))
  {
    ghost var line := Bits(row);
    var width := |row|;
    assert |line| == width && forall i :: 0 <= i < width ==> On(line, i) == (row[i] != 0);
    hide Bits, Pack, NoZeroByte, Word;
    runs := before;
    var inside, begin, x := false, 0, 0;
    while x < width
      invariant x <= width && inside == On(line, x - 1)
      invariant runs + (if inside then [begin] else []) == before + Edges(line, x)
    {
      if x + 8 <= width {
        var word := row[x..x + 8];
        if if inside then NoZeroByte(Word(word)) else Word(word) == 0 {
          WordIs(word);
          assert forall i :: x <= i < x + 8 ==> row[i] == word[i - x];
          NoEdges(line, x, x + 8);
          x := x + 8;
          continue;
        }
      }
      var selected := row[x] != 0;
      assert before + Edges(line, x + 1) == before + Edges(line, x) + if selected != inside then [x] else [];
      if selected != inside {
        if selected {
          begin := x;
        } else {
          assert runs + [begin, x] == runs + [begin] + [x];
          runs := runs + [begin, x];
        }
        inside := selected;
      }
      x := x + 1;
    }
    assert before + AllEdges(line) == before + Edges(line, width) + if inside then [width] else [];
    if inside {
      assert runs + [begin, width] == runs + [begin] + [width];
      runs := runs + [begin, width];
    }
  }

  method AlongX(raster: seq<Byte>, width: nat, height: nat, mostRuns: nat) returns (taken: bool, made: Runs)
    requires |raster| == width * height
    ensures taken <==> TotalRuns(Lines(raster, width, height, true)) <= mostRuns
    ensures taken ==> Encodes(made, Lines(raster, width, height, true))
  {
    ghost var lines := Lines(raster, width, height, true);
    assert |lines| == height && forall y :: 0 <= y < height ==> lines[y] == Row(raster, width, y);
    assert Flat(lines, 0) == [];
    var runs: seq<nat>, offsets: seq<nat> := [], [0];
    for y := 0 to height
      invariant runs == Flat(lines, y)
      invariant OffsetsOf(offsets, lines, y)
      invariant |runs| / 2 <= mostRuns
    {
      hide *;
      RowBytesAreTheRow(raster, width, height, y);
      runs := EncodeRow(RowBytes(raster, width, height, y), runs);
      FlatStep(lines, y);
      if |runs| / 2 > mostRuns {
        TotalAtLeast(lines, y + 1);
        return false, Runs([], []);
      }
      OffsetsStep(offsets, lines, y);
      offsets := offsets + [|runs| / 2];
    }
    return true, Runs(runs, offsets);
  }

  lemma OffsetsStep(offsets: seq<nat>, lines: seq<seq<bool>>, n: nat)
    requires n < |lines| && OffsetsOf(offsets, lines, n)
    ensures OffsetsOf(offsets + [|Flat(lines, n + 1)| / 2], lines, n + 1)
  {}

  lemma FlatStep(lines: seq<seq<bool>>, n: nat)
    requires n < |lines|
    ensures Flat(lines, n + 1) == Flat(lines, n) + AllEdges(lines[n])
  {}

  lemma TotalAtLeast(lines: seq<seq<bool>>, n: nat)
    requires n <= |lines|
    ensures |Flat(lines, n)| / 2 <= TotalRuns(lines)
  {
    FlatGrows(lines, n, |lines|);
  }

  // ---- Along y ----

  // Where row y differs from the row above it, onto the end of the edges: a run of that column
  // begins there, or ended at the row before.
  method ScanRow(row: seq<Byte>, above: seq<Byte>, y: nat, columns: seq<nat>, rows: seq<nat>)
    returns (columns': seq<nat>, rows': seq<nat>)
    requires |row| == |above| && |columns| == |rows| && forall k :: 0 <= k < |columns| ==> columns[k] < |row|
    ensures |columns'| == |rows'| && forall k :: 0 <= k < |columns'| ==> columns'[k] < |row|
    ensures Gained(columns, rows, columns', rows', y, row, above, |row|)
  {
    columns', rows' := columns, rows;
    var width, x := |row|, 0;
    assert Gained(columns, rows, columns', rows', y, row, above, 0);
    hide Gained, Pack, Word;
    while x < width
      invariant x <= width
      invariant |columns'| == |rows'| && forall k :: 0 <= k < |columns'| ==> columns'[k] < |row|
      invariant Gained(columns, rows, columns', rows', y, row, above, x)
    {
      if x + 8 <= width && Word(row[x..x + 8]) == Word(above[x..x + 8]) {
        WordsAgree(row[x..x + 8], above[x..x + 8]);
        GainNone(columns, rows, columns', rows', y, row, above, x, x + 8);
        x := x + 8;
        continue;
      }
      if (row[x] != 0) != (above[x] != 0) {
        GainOne(columns, rows, columns', rows', y, row, above, x);
        columns', rows' := columns' + [x], rows' + [y];
      } else {
        GainNone(columns, rows, columns', rows', y, row, above, x, x + 1);
      }
      x := x + 1;
    }
  }

  predicate EdgeBefore(row: seq<Byte>, above: seq<Byte>, x: nat, c: nat)
    requires x <= |row| == |above|
  {
    c < x && (row[c] != 0) != (above[c] != 0)
  }

  // Every column below x where the rows differ has the edge y it did not have; the others have what
  // they had.
  ghost predicate Gained(columns: seq<nat>, rows: seq<nat>, columns': seq<nat>, rows': seq<nat>, y: nat,
                         row: seq<Byte>, above: seq<Byte>, x: nat)
    requires |columns| == |rows| && |columns'| == |rows'| && x <= |row| == |above|
  {
    forall c :: 0 <= c < |row| ==>
      Group(columns', rows', c) == Group(columns, rows, c) + if EdgeBefore(row, above, x, c) then [y] else []
  }

  lemma GainNone(columns: seq<nat>, rows: seq<nat>, columns': seq<nat>, rows': seq<nat>, y: nat,
                 row: seq<Byte>, above: seq<Byte>, x: nat, x': nat)
    requires |columns| == |rows| && |columns'| == |rows'| && x <= x' <= |row| == |above|
    requires Gained(columns, rows, columns', rows', y, row, above, x)
    requires row[x..x'] == above[x..x'] || (x' == x + 1 && (row[x] != 0) == (above[x] != 0))
    ensures Gained(columns, rows, columns', rows', y, row, above, x')
  {
    assert row[x..x'] == above[x..x'] ==> forall c :: x <= c < x' ==> row[c] == row[x..x'][c - x] == above[c];
  }

  lemma GainOne(columns: seq<nat>, rows: seq<nat>, columns': seq<nat>, rows': seq<nat>, y: nat,
                row: seq<Byte>, above: seq<Byte>, x: nat)
    requires |columns| == |rows| && |columns'| == |rows'| && x < |row| == |above|
    requires Gained(columns, rows, columns', rows', y, row, above, x)
    requires (row[x] != 0) != (above[x] != 0)
    ensures Gained(columns, rows, columns' + [x], rows' + [y], y, row, above, x + 1)
  {
    var next := x + 1;
    forall c | 0 <= c < |row|
      ensures Group(columns' + [x], rows' + [y], c)
           == Group(columns, rows, c) + if EdgeBefore(row, above, next, c) then [y] else []
    {
      GroupAppend(columns', rows', x, y, c);
    }
  }

  // Every column's edges so far, grouped out of all of them.
  ghost predicate HasEdges(columns: seq<nat>, rows: seq<nat>, lines: seq<seq<bool>>, y: nat)
    requires |columns| == |rows|
  {
    && (forall k :: 0 <= k < |columns| ==> columns[k] < |lines|)
    && forall c :: 0 <= c < |lines| ==> y <= |lines[c]| + 1 && Group(columns, rows, c) == Edges(lines[c], y)
  }

  // A row of bytes is row y of the lines, across them.
  ghost predicate Across(row: seq<Byte>, lines: seq<seq<bool>>, y: int) {
    |row| == |lines| && forall c :: 0 <= c < |lines| ==> (row[c] != 0) == On(lines[c], y)
  }

  lemma EdgesGain(columns: seq<nat>, rows: seq<nat>, columns': seq<nat>, rows': seq<nat>, lines: seq<seq<bool>>,
                  y: nat, row: seq<Byte>, above: seq<Byte>)
    requires |columns| == |rows| && |columns'| == |rows'|
    requires HasEdges(columns, rows, lines, y) && forall c :: 0 <= c < |lines| ==> y <= |lines[c]|
    requires Across(row, lines, y) && Across(above, lines, y - 1)
    requires Gained(columns, rows, columns', rows', y, row, above, |row|)
    requires forall k :: 0 <= k < |columns'| ==> columns'[k] < |row|
    ensures HasEdges(columns', rows', lines, y + 1)
  {
    var next := y + 1;
    forall c | 0 <= c < |lines| ensures Group(columns', rows', c) == Edges(lines[c], next) {
      assert EdgeBefore(row, above, |row|, c) == (On(lines[c], y) != On(lines[c], y - 1));
    }
  }

  lemma {:induction false} GroupedWithin(columns: seq<nat>, rows: seq<nat>, lines: seq<seq<bool>>, y: nat, n: nat)
    requires |columns| == |rows| && n <= |lines| && HasEdges(columns, rows, lines, y)
    ensures |Grouped(columns, rows, n)| <= |Flat(lines, n)|
  {
    hide *;
    if n == 0 {
      NoLines(columns, rows, lines);
    } else {
      GroupedWithin(columns, rows, lines, y, n - 1);
      OneColumn(columns, rows, lines, y, n - 1);
      GroupedStep(columns, rows, n - 1);
      FlatStep(lines, n - 1);
    }
  }

  lemma {:induction false} GroupedIsFlat(columns: seq<nat>, rows: seq<nat>, lines: seq<seq<bool>>, y: nat, n: nat)
    requires |columns| == |rows| && n <= |lines| && HasEdges(columns, rows, lines, y)
    requires forall c :: 0 <= c < |lines| ==> y == |lines[c]| + 1
    ensures Grouped(columns, rows, n) == Flat(lines, n)
  {
    hide *;
    if n == 0 {
      NoLines(columns, rows, lines);
    } else {
      GroupedIsFlat(columns, rows, lines, y, n - 1);
      OneColumn(columns, rows, lines, y, n - 1);
      GroupedStep(columns, rows, n - 1);
      FlatStep(lines, n - 1);
    }
  }

  lemma NoLines(columns: seq<nat>, rows: seq<nat>, lines: seq<seq<bool>>)
    requires |columns| == |rows|
    ensures Grouped(columns, rows, 0) == [] && Flat(lines, 0) == []
  {}

  lemma OneColumn(columns: seq<nat>, rows: seq<nat>, lines: seq<seq<bool>>, y: nat, c: nat)
    requires |columns| == |rows| && c < |lines| && HasEdges(columns, rows, lines, y)
    ensures |Group(columns, rows, c)| <= |AllEdges(lines[c])|
    ensures y == |lines[c]| + 1 ==> Group(columns, rows, c) == AllEdges(lines[c])
  {
    EdgesGrow(lines[c], y, |lines[c]| + 1);
  }

  lemma {:induction false} EdgesGrow(line: seq<bool>, a: nat, b: nat)
    requires a <= b
    ensures Edges(line, a) <= Edges(line, b)
  {
    if a < b { EdgesGrow(line, a, b - 1); }
  }

  lemma RowBytesAcross(raster: seq<Byte>, width: nat, height: nat, y: nat)
    requires |raster| == width * height
    ensures Across(RowBytes(raster, width, height, y), Lines(raster, width, height, false), y)
  {
    if y < height { RowInside(width, height, y); }
  }

  lemma NoneYet(lines: seq<seq<bool>>, above: seq<Byte>)
    requires above == seq(|lines|, _ => 0)
    ensures HasEdges([], [], lines, 0) && Across(above, lines, -1)
  {}

  lemma ColumnCount(raster: seq<Byte>, width: nat, height: nat)
    ensures |Lines(raster, width, height, false)| == width
    ensures forall c :: 0 <= c < width ==> |Lines(raster, width, height, false)[c]| == height
  {}

  method AlongY(raster: seq<Byte>, width: nat, height: nat, mostRuns: nat) returns (taken: bool, made: Runs)
    requires |raster| == width * height
    ensures taken <==> TotalRuns(Lines(raster, width, height, false)) <= mostRuns
    ensures taken ==> Encodes(made, Lines(raster, width, height, false))
  {
    hide *;
    ghost var lines := Lines(raster, width, height, false);
    ColumnCount(raster, width, height);
    made := Runs([], []);
    var columns: seq<nat>, rows: seq<nat> := [], [];
    var above := seq(width, _ => 0);
    NoneYet(lines, above);
    for y := 0 to height + 1
      invariant |columns| == |rows| <= 2 * mostRuns && forall k :: 0 <= k < |columns| ==> columns[k] < width
      invariant |above| == width && Across(above, lines, y - 1)
      invariant HasEdges(columns, rows, lines, y)
    {
      var row := RowBytes(raster, width, height, y);
      var columns', rows' := ScanRow(row, above, y, columns, rows);
      RowBytesAcross(raster, width, height, y);
      EdgesGain(columns, rows, columns', rows', lines, y, row, above);
      columns, rows, above := columns', rows', row;
      if |columns| > 2 * mostRuns {
        TooMany(columns, rows, lines, y + 1, mostRuns);
        return false, made;
      }
    }
    var offsets, sorted := GroupByKey(columns, rows, width);
    taken, made := true, Runs(sorted, seq(width + 1, i requires 0 <= i <= width => offsets[i] / 2));
    Sorted(columns, rows, lines, height, offsets, made, mostRuns);
  }

  lemma TooMany(columns: seq<nat>, rows: seq<nat>, lines: seq<seq<bool>>, y: nat, mostRuns: nat)
    requires |columns| == |rows| > 2 * mostRuns && HasEdges(columns, rows, lines, y)
    ensures TotalRuns(lines) > mostRuns
  {
    GroupedWithin(columns, rows, lines, y, |lines|);
    GroupedHoldsAll(columns, rows, |lines|);
    FlatGrows(lines, |lines|, |lines|);
  }

  lemma Sorted(columns: seq<nat>, rows: seq<nat>, lines: seq<seq<bool>>, height: nat, offsets: seq<nat>, made: Runs,
               mostRuns: nat)
    requires |columns| == |rows| <= 2 * mostRuns && HasEdges(columns, rows, lines, height + 1)
    requires forall c :: 0 <= c < |lines| ==> height == |lines[c]|
    requires |offsets| == |lines| + 1 == |made.offsets|
    requires forall c :: 0 <= c <= |lines| ==>
              offsets[c] == Start(columns, rows, c) && made.offsets[c] == offsets[c] / 2
    requires made.runs == Grouped(columns, rows, |lines|)
    ensures TotalRuns(lines) <= mostRuns && Encodes(made, lines)
  {
    forall n | 0 <= n <= |lines| ensures Grouped(columns, rows, n) == Flat(lines, n) {
      GroupedIsFlat(columns, rows, lines, height + 1, n);
    }
    GroupedHoldsAll(columns, rows, |lines|);
  }

  // ---- Either way ----

  // The raster as runs along u, unless it is too wide, too tall or too fragmented.
  method RunsAlongU(raster: seq<Byte>, width: nat, height: nat, uIsX: bool) returns (taken: bool, made: Runs)
    requires |raster| == width * height
    ensures taken <==>
            && B.Max(width, height) <= UINT32_MAX
            && TotalRuns(Lines(raster, width, height, uIsX))
               <= B.Max(if uIsX then height else width, width * height / LEAST_PIXELS_PER_RUN)
    ensures taken ==> Encodes(made, Lines(raster, width, height, uIsX))
  {
    made := Runs([], []);
    var lines := if uIsX then height else width;
    if B.Max(width, height) > UINT32_MAX {
      return false, made;
    }
    var mostRuns := B.Max(lines, width * height / LEAST_PIXELS_PER_RUN);
    if uIsX {
      taken, made := AlongX(raster, width, height, mostRuns);
    } else {
      taken, made := AlongY(raster, width, height, mostRuns);
    }
  }

  // The raster with its rows and columns exchanged.
  ghost function Transposed(raster: seq<Byte>, width: nat, height: nat): (t: seq<Byte>)
    requires |raster| == width * height
    ensures |t| == width * height
  {
    seq(width * height, i requires 0 <= i < width * height =>
      TransposedInside(width, height, i); raster[(i % height) * width + i / height])
  }

  lemma TransposedInside(width: nat, height: nat, i: nat)
    requires i < width * height
    ensures height > 0 && i / height < width && 0 <= (i % height) * width + i / height < width * height
  {
    assert height > 0;
    B.AtOrPast(width, i, height);
    CellInside(width, height, i / height, i % height);
  }

  lemma CellInside(width: nat, height: nat, x: nat, y: nat)
    requires x < width && y < height
    ensures 0 <= y * width + x < width * height
  {
    RowInside(width, height, y);
  }

  lemma SelTransposed(raster: seq<Byte>, width: nat, height: nat, x: nat, y: nat)
    requires |raster| == width * height && x < width && y < height
    ensures Sel(raster, width, x, y) == Sel(Transposed(raster, width, height), height, y, x)
  {
    CellInside(width, height, x, y);
    CellInside(height, width, y, x);
    var at := x * height + y;
    B.DivMod(x, y, height);
    assert Transposed(raster, width, height)[at] == raster[y * width + x];
  }

  // The lines along y are the lines along x of the transposed raster, so the two encoders agree: an
  // encoding is determined by the lines.
  lemma ColumnsAreTransposedRows(raster: seq<Byte>, width: nat, height: nat)
    requires |raster| == width * height
    ensures Lines(raster, width, height, false) == Lines(Transposed(raster, width, height), height, width, true)
  {
    var a, b := Lines(raster, width, height, false), Lines(Transposed(raster, width, height), height, width, true);
    forall x | 0 <= x < width ensures a[x] == b[x] {
      hide Sel, Transposed;
      forall y | 0 <= y < height ensures a[x][y] == b[x][y] {
        SelTransposed(raster, width, height, x, y);
      }
    }
  }

  lemma EncodingIsUnique(a: Runs, b: Runs, lines: seq<seq<bool>>)
    requires Encodes(a, lines) && Encodes(b, lines)
    ensures a == b
  {
    assert a.offsets == b.offsets;
  }
}
