// How a read's arithmetic is divided into tasks: PlanRowTasks and TaskRows, src/work_pool.cc, and
// TaskSplit, src/reduce/task_split.h. Sizes are unbounded, so no product wraps.

module TaskSplits {
  import B = ChunkBlocks

  function PlanRowTasks(rowPixels: nat, rows: nat, maxTasks: nat, leastPixels: nat): (tasks: nat)
    ensures rows == 0 <==> tasks == 0
    ensures tasks <= B.Max(1, maxTasks) && tasks <= rows
    ensures tasks > 1 ==> tasks * leastPixels <= rowPixels * rows
  {
    if rows == 0 || rowPixels == 0 || maxTasks <= 1 then (if rows == 0 then 0 else 1)
    else
      var affordable := B.Max(1, rowPixels * rows / B.Max(1, leastPixels));
      var tasks := B.Min(B.Min(maxTasks, affordable), rows);
      assert tasks > 1 ==> tasks * leastPixels <= rowPixels * rows by {
        B.AtOrPast(tasks, rowPixels * rows, B.Max(1, leastPixels));
      }
      assert tasks >= 1;
      tasks
  }

  datatype RowRange = RowRange(first: nat, last: nat)

  function PerTask(tasks: nat, rows: nat): nat
    requires tasks > 0
  {
    (rows + tasks - 1) / tasks
  }

  function TaskRows(task: nat, tasks: nat, rows: nat): (range: RowRange)
    requires tasks > 0
    ensures range.first <= range.last <= rows
  {
    var first := task * PerTask(tasks, rows);
    RowRange(B.Min(first, rows), B.Min(first + PerTask(tasks, rows), rows))
  }

  // Every row is in exactly one task's piece.
  lemma EachRowInOneTask(tasks: nat, rows: nat, row: nat) returns (owner: nat)
    requires tasks > 0 && row < rows
    ensures owner < tasks
    ensures forall task: nat :: task < tasks ==>
              (TaskRows(task, tasks, rows).first <= row < TaskRows(task, tasks, rows).last <==> task == owner)
  {
    var per := PerTask(tasks, rows);
    B.DivIs(rows + tasks - 1, tasks, per);
    assert tasks * per >= rows;
    owner := row / per;
    B.DivIs(row, per, owner);
    B.AtOrPast(tasks, row, per);
    forall task: nat | task < tasks
      ensures TaskRows(task, tasks, rows).first <= row < TaskRows(task, tasks, rows).last <==> task == owner
    {
      B.DivIs(row, per, task);
    }
  }

  // The pieces are in task order, each beginning where the one before it ends.
  lemma TasksFollow(task: nat, tasks: nat, rows: nat)
    requires tasks > 0
    ensures TaskRows(0, tasks, rows).first == 0
    ensures TaskRows(task + 1, tasks, rows).first == TaskRows(task, tasks, rows).last
    ensures TaskRows(tasks - 1, tasks, rows).last == rows
  {
    var per := PerTask(tasks, rows);
    B.DivIs(rows + tasks - 1, tasks, per);
    assert (tasks - 1) * per + per == tasks * per && (task + 1) * per == task * per + per;
  }

  // What a reduction divides a read by.
  datatype TaskSplit = TaskSplit(most: nat, leastPixels: nat)
  {
    // Never more tasks than accumulators.
    function Tasks(unitPixels: nat, units: nat): (tasks: nat)
      ensures units == 0 <==> tasks == 0
      ensures most >= 1 ==> tasks <= most
      ensures tasks <= units
    {
      PlanRowTasks(unitPixels, units, most, leastPixels)
    }
  }

  function SplitOf(workers: nat, budgetBytes: nat, accumulatorBytes: nat, leastPixels: nat): (split: TaskSplit)
    requires workers >= 1
    ensures 1 <= split.most <= workers
    ensures split.most > 1 ==> split.most * accumulatorBytes <= budgetBytes
  {
    var affordable := B.Max(1, budgetBytes / B.Max(1, accumulatorBytes));
    B.AtOrPast(B.Min(workers, affordable), budgetBytes, B.Max(1, accumulatorBytes));
    TaskSplit(B.Min(workers, affordable), leastPixels)
  }
}
