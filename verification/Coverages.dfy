// Which trials a CSV holds whole: what CsvOutput::Open makes of its rows, bench/record.cc.

module Coverages {
  import opened Wrappers
  import opened CsvRows

  // A run key and the number of a trial of that run.
  type Trial = (string, nat)

  function TrialOf(row: RowSummary): Trial { (row.runKey, row.trial) }

  // The evidence about one trial in a file: an error row if there was one, the processes and operations its
  // rows state, and the pairs of these reported.
  datatype Coverage = Coverage(error: bool, grid: Option<(nat, nat)>, reported: set<(nat, nat)>)
  {
    function With(row: RowSummary): Coverage {
      var rows: (nat, nat) := (row.processes, row.ops);
      Coverage(error || row.status == "error" || row.opIndex.None? || (grid.Some? && grid.value != rows),
               Some(rows),
               if row.opIndex.Some? && row.processIndex < row.processes && row.opIndex.value < row.ops
               then reported + {(row.processIndex, row.opIndex.value)} else reported)
    }

    predicate Complete() {
      !error && grid.Some? && grid.value.0 * grid.value.1 > 0 && |reported| == grid.value.0 * grid.value.1
    }
  }

  const NO_COVERAGE := Coverage(false, None, {})

  function CoverageOf(rows: seq<RowSummary>, trial: Trial): Coverage {
    if rows == [] then NO_COVERAGE
    else
      var before := CoverageOf(rows[..|rows| - 1], trial);
      if TrialOf(rows[|rows| - 1]) == trial then before.With(rows[|rows| - 1]) else before
  }

  // ---- What a whole trial is ----

  ghost predicate Has(rows: seq<RowSummary>, trial: Trial) {
    exists i :: 0 <= i < |rows| && TrialOf(rows[i]) == trial
  }

  // Every row of the trial is of this grid, is about an operation and is no error.
  ghost predicate Sound(rows: seq<RowSummary>, trial: Trial, processes: nat, ops: nat) {
    forall i :: 0 <= i < |rows| && TrialOf(rows[i]) == trial ==> SoundRow(rows[i], processes, ops)
  }

  ghost predicate SoundRow(row: RowSummary, processes: nat, ops: nat) {
    row.processes == processes && row.ops == ops && row.status != "error" && row.opIndex.Some?
  }

  // Some row of the trial is about operation op of process p.
  ghost predicate Reports(rows: seq<RowSummary>, trial: Trial, p: nat, op: nat) {
    exists i :: 0 <= i < |rows| && IsOf(rows[i], trial, p, op)
  }

  ghost predicate IsOf(row: RowSummary, trial: Trial, p: nat, op: nat) {
    TrialOf(row) == trial && row.processIndex == p && row.opIndex == Some(op)
  }

  // The trial's rows contain no error, and report each pair of process and operation they state.
  ghost predicate Whole(rows: seq<RowSummary>, trial: Trial) {
    exists i :: 0 <= i < |rows| && TrialOf(rows[i]) == trial
      && WholeOn(rows, trial, rows[i].processes, rows[i].ops)
  }

  ghost predicate WholeOn(rows: seq<RowSummary>, trial: Trial, processes: nat, ops: nat) {
    && processes > 0 && ops > 0 && Sound(rows, trial, processes, ops)
    && forall p: nat, op: nat :: p < processes && op < ops ==> Reports(rows, trial, p, op)
  }

  // ---- Counting what is reported tells whether all of it is ----

  function Grid(processes: nat, ops: nat): (grid: set<(nat, nat)>)
    ensures forall p: nat, op: nat :: (p, op) in grid <==> p < processes && op < ops
    ensures |grid| == processes * ops
    decreases processes
  {
    if processes == 0 then {}
    else
      RowAdds(Grid(processes - 1, ops), processes - 1, ops);
      Grid(processes - 1, ops) + GridRow(processes - 1, ops)
  }

  function GridRow(p: nat, ops: nat): (row: set<(nat, nat)>)
    ensures forall q: nat, op: nat :: (q, op) in row <==> q == p && op < ops
    ensures |row| == ops
  {
    if ops == 0 then {} else GridRow(p, ops - 1) + {(p, ops - 1)}
  }

  lemma RowAdds(grid: set<(nat, nat)>, p: nat, ops: nat)
    requires |grid| == p * ops && forall q: nat, op: nat :: (q, op) in grid <==> q < p && op < ops
    ensures |grid + GridRow(p, ops)| == (p + 1) * ops
  {
    var row := GridRow(p, ops);
    forall q: nat, op: nat | (q, op) in grid ensures (q, op) !in row {}
    forall at: (nat, nat) | at in grid ensures at !in row { assert at == (at.0, at.1); }
    assert grid !! row;
  }

  lemma {:induction false} AllOfThem<T>(part: set<T>, all: set<T>)
    requires part <= all && |part| == |all|
    ensures part == all
  {
    forall x | x in all ensures x in part {
      if x !in part {
        assert all == (all - {x}) + {x};
        SubsetCounts(part, all - {x});
      }
    }
  }

  // What the coverage of a trial says of its rows.
  ghost predicate Covers(c: Coverage, rows: seq<RowSummary>, trial: Trial) {
    && (c.grid.None? <==> !Has(rows, trial))
    && (c.grid.None? ==> !c.error && c.reported == {})
    && (!c.error && c.grid.Some? ==>
          && Sound(rows, trial, c.grid.value.0, c.grid.value.1)
          && c.reported <= Grid(c.grid.value.0, c.grid.value.1)
          && forall p: nat, op: nat :: p < c.grid.value.0 && op < c.grid.value.1 ==>
               ((p, op) in c.reported <==> Reports(rows, trial, p, op)))
    && (c.error ==> !exists p: nat, o: nat :: Sound(rows, trial, p, o))
  }

  lemma {:induction false} CoverageCovers(rows: seq<RowSummary>, trial: Trial)
    ensures Covers(CoverageOf(rows, trial), rows, trial)
    decreases |rows|
  {
    if rows != [] {
      var l := |rows| - 1;
      CoverageCovers(rows[..l], trial);
      assert rows == rows[..l] + [rows[l]];
      if TrialOf(rows[l]) == trial {
        OneMoreCovers(CoverageOf(rows[..l], trial), rows[..l], rows[l], trial);
      } else {
        OtherCovers(CoverageOf(rows[..l], trial), rows[..l], rows[l], trial);
      }
    }
  }

  // A row of another trial changes nothing of this one's.
  lemma OtherCovers(c: Coverage, rows: seq<RowSummary>, row: RowSummary, trial: Trial)
    requires Covers(c, rows, trial) && TrialOf(row) != trial
    ensures Covers(c, rows + [row], trial)
  {
    HasMore(rows, row, trial);
    forall p: nat, op: nat
      ensures Reports(rows + [row], trial, p, op) <==> Reports(rows, trial, p, op)
      ensures Sound(rows + [row], trial, p, op) <==> Sound(rows, trial, p, op)
    {
      ReportsMore(rows, row, trial, p, op);
      SoundMore(rows, row, trial, p, op);
    }
    hide Reports, Has, Sound;
  }

  lemma HasMore(rows: seq<RowSummary>, row: RowSummary, trial: Trial)
    ensures Has(rows + [row], trial) <==> Has(rows, trial) || TrialOf(row) == trial
  {
    var more := rows + [row];
    assert forall i :: 0 <= i < |rows| ==> more[i] == rows[i];
    assert more[|rows|] == row;
  }

  lemma SoundMore(rows: seq<RowSummary>, row: RowSummary, trial: Trial, p: nat, o: nat)
    ensures Sound(rows + [row], trial, p, o)
       <==> Sound(rows, trial, p, o) && (TrialOf(row) == trial ==> SoundRow(row, p, o))
  {
    hide SoundRow;
    var more := rows + [row];
    assert more[|rows|] == row;
    if Sound(more, trial, p, o) {
      forall i | 0 <= i < |rows| && TrialOf(rows[i]) == trial ensures SoundRow(rows[i], p, o) {
        assert more[i] == rows[i];
      }
    }
  }

  lemma ReportsMore(rows: seq<RowSummary>, row: RowSummary, trial: Trial, p: nat, op: nat)
    ensures Reports(rows + [row], trial, p, op) <==> Reports(rows, trial, p, op) || IsOf(row, trial, p, op)
  {
    hide IsOf;
    var more := rows + [row];
    assert more[|rows|] == row;
    if Reports(rows, trial, p, op) {
      var i :| 0 <= i < |rows| && IsOf(rows[i], trial, p, op);
      assert IsOf(more[i], trial, p, op);
    }
    if IsOf(row, trial, p, op) { assert IsOf(more[|rows|], trial, p, op); }
  }

  lemma OneMoreCovers(c: Coverage, rows: seq<RowSummary>, row: RowSummary, trial: Trial)
    requires Covers(c, rows, trial) && TrialOf(row) == trial
    ensures Covers(c.With(row), rows + [row], trial)
  {
    HasMore(rows, row, trial);
    if c.With(row).error {
      InError(c, rows, row, trial);
    } else {
      InOrder(c, rows, row, trial);
    }
  }

  lemma InError(c: Coverage, rows: seq<RowSummary>, row: RowSummary, trial: Trial)
    requires Covers(c, rows, trial) && TrialOf(row) == trial && c.With(row).error && Has(rows + [row], trial)
    ensures Covers(c.With(row), rows + [row], trial)
  {
    hide Reports, Has, Grid;
    forall p: nat, o: nat ensures !Sound(rows + [row], trial, p, o) {
      SoundMore(rows, row, trial, p, o);
      if Sound(rows, trial, p, o) && c.grid.Some? && !c.error {
        OneGrid(rows, trial, p, o, c.grid.value.0, c.grid.value.1);
      }
    }
  }

  // Rows are of one grid.
  lemma OneGrid(rows: seq<RowSummary>, trial: Trial, p: nat, o: nat, p': nat, o': nat)
    requires Sound(rows, trial, p, o) && Sound(rows, trial, p', o')
    ensures Has(rows, trial) ==> p == p' && o == o'
  {
    if Has(rows, trial) {
      var i :| 0 <= i < |rows| && TrialOf(rows[i]) == trial;
      assert SoundRow(rows[i], p, o) && SoundRow(rows[i], p', o');
    }
  }

  lemma InOrder(c: Coverage, rows: seq<RowSummary>, row: RowSummary, trial: Trial)
    requires Covers(c, rows, trial) && TrialOf(row) == trial && !c.With(row).error && Has(rows + [row], trial)
    ensures Covers(c.With(row), rows + [row], trial)
  {
    var processes: nat, ops: nat, next := row.processes, row.ops, c.With(row);
    if c.grid.None? { NothingReported(rows, trial); }
    SoundMore(rows, row, trial, processes, ops);
    hide Has, Sound;
    forall p: nat, op: nat | p < processes && op < ops
      ensures (p, op) in next.reported <==> Reports(rows + [row], trial, p, op)
    {
      ReportsMore(rows, row, trial, p, op);
    }
  }

  lemma NothingReported(rows: seq<RowSummary>, trial: Trial)
    requires !Has(rows, trial)
    ensures forall p: nat, op: nat :: !Reports(rows, trial, p, op) && Sound(rows, trial, p, op)
  {}

  // What Open calls completed is what is whole.
  lemma CompleteIsWhole(rows: seq<RowSummary>, trial: Trial)
    ensures CoverageOf(rows, trial).Complete() <==> Whole(rows, trial)
  {
    var c := CoverageOf(rows, trial);
    CoverageCovers(rows, trial);
    hide CoverageOf;
    if c.Complete() { CompleteMeansWhole(c, rows, trial); }
    if Whole(rows, trial) { WholeMeansComplete(c, rows, trial); }
  }

  lemma CompleteMeansWhole(c: Coverage, rows: seq<RowSummary>, trial: Trial)
    requires Covers(c, rows, trial) && c.Complete()
    ensures Whole(rows, trial)
  {
    hide Reports, Sound;
    var p, o := c.grid.value.0, c.grid.value.1;
    AllOfThem(c.reported, Grid(p, o));
    assert WholeOn(rows, trial, p, o);
    hide Covers;
    HasItsGrid(rows, trial, p, o);
  }

  lemma HasItsGrid(rows: seq<RowSummary>, trial: Trial, p: nat, o: nat)
    requires WholeOn(rows, trial, p, o)
    ensures Whole(rows, trial)
  {
    assert Reports(rows, trial, 0, 0);
    var i :| 0 <= i < |rows| && IsOf(rows[i], trial, 0, 0);
    assert SoundRow(rows[i], p, o);
  }

  lemma WholeMeansComplete(c: Coverage, rows: seq<RowSummary>, trial: Trial)
    requires Covers(c, rows, trial) && Whole(rows, trial)
    ensures c.Complete()
  {
    var i :| 0 <= i < |rows| && TrialOf(rows[i]) == trial && WholeOn(rows, trial, rows[i].processes, rows[i].ops);
    var p: nat, o: nat := rows[i].processes, rows[i].ops;
    hide Reports;
    assert Has(rows, trial) && Sound(rows, trial, p, o);
    assert c.grid == Some((p, o)) by { assert SoundRow(rows[i], c.grid.value.0, c.grid.value.1); }
    hide Sound, SoundRow;
    forall at: (nat, nat) | at in Grid(p, o) ensures at in c.reported {
      assert at == (at.0, at.1) && Reports(rows, trial, at.0, at.1);
    }
    assert c.reported == Grid(p, o);
    Positive(p, o);
  }

  lemma Positive(a: nat, b: nat)
    requires a > 0 && b > 0
    ensures a * b > 0
  {}
}
