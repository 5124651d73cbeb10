// Resuming over and over, with the process cut short anywhere: the loop of bench/main.cc over the CSV of
// bench/record.cc.

module ResumeSessions {
  import opened Wrappers
  import opened CsvLines
  import opened CsvRows
  import opened Coverages
  import opened ResumeLogs

  // A line, and the attempt it was written by.
  datatype Entry = Entry(line: string, attempt: nat)

  ghost function LinesOf(entries: seq<Entry>): (lines: seq<string>)
    ensures |lines| == |entries| && forall i :: 0 <= i < |entries| ==> lines[i] == entries[i].line
  {
    seq(|entries|, i requires 0 <= i < |entries| => entries[i].line)
  }

  // No trial has rows of two attempts.
  ghost predicate OneAttempt(entries: seq<Entry>) {
    forall i, j :: 0 <= i < j < |entries| && SameTrial(entries[i].line, entries[j].line) ==>
      entries[i].attempt == entries[j].attempt
  }

  ghost predicate SameTrial(a: string, b: string) {
    Summary(a).Some? && Summary(b).Some? && TrialOf(Summary(a).value) == TrialOf(Summary(b).value)
  }

  ghost predicate IsHeader(header: string) {
    header != "" && IsLine(header) && Summary(header).None?
  }

  // A header and rows, each of one line, and no trial's of two attempts.
  ghost predicate Log(entries: seq<Entry>, header: string) {
    && (entries != [] ==> entries[0].line == header)
    && (forall i :: 0 <= i < |entries| ==> IsLine(entries[i].line) && (i > 0 ==> Summary(entries[i].line).Some?))
    && OneAttempt(entries)
  }

  // What is on disk between sessions: such a log, and perhaps part of a line.
  ghost predicate OnDisk(disk: string, entries: seq<Entry>, tail: string, header: string) {
    IsLine(tail) && disk == Text(LinesOf(entries)) + tail && Log(entries, header)
  }

  ghost predicate Survives(disk: string, entries: seq<Entry>, header: string) {
    exists tail :: OnDisk(disk, entries, tail, header)
  }

  ghost function TitledWith(entries: seq<Entry>, header: string): seq<Entry> {
    if entries == [] then [Entry(header, 0)] else entries
  }

  lemma LogLines(entries: seq<Entry>, header: string)
    requires Log(entries, header) && IsHeader(header)
    ensures forall l :: l in LinesOf(entries) ==> IsLine(l)
    ensures AllRows(AfterHeader(LinesOf(entries)))
    ensures Titled(LinesOf(entries)) <==> entries != []
    ensures entries != [] ==> LinesOf(entries)[0] == header
  {
    var lines := LinesOf(entries);
    forall l | l in AfterHeader(lines) ensures Summary(l).Some? {
      var i :| 0 <= i < |AfterHeader(lines)| && AfterHeader(lines)[i] == l;
      assert lines[i + 1] == l;
    }
  }

  // A log is found again, whatever it was cut short in: Open never refuses it.
  lemma FoundAgain(disk: string, entries: seq<Entry>, header: string, lines: seq<string>)
    requires Survives(disk, entries, header) && IsHeader(header) && LinesOn(disk, lines)
    ensures lines == LinesOf(entries)
  {
    hide Log, Text, IsHeader, IsLine;
    var tail :| OnDisk(disk, entries, tail, header);
    LogLines(entries, header);
    assert disk == Text(lines) + disk[|Text(lines)|..];
    LinesAreUnique(lines, disk[|Text(lines)|..], LinesOf(entries), tail);
  }

  lemma TitledIsLog(entries: seq<Entry>, header: string)
    requires Log(entries, header) && IsHeader(header)
    ensures Log(TitledWith(entries, header), header)
    ensures Text(LinesOf(TitledWith(entries, header)))
         == Text(LinesOf(entries)) + if Titled(LinesOf(entries)) then "" else header + [NEWLINE]
  {
    hide Summary;
    if entries == [] {
      TextOfOne(header);
      assert LinesOf(TitledWith(entries, header)) == [header] && Text(LinesOf(entries)) == "";
    }
  }

  lemma OpensAgain(disk: string, entries: seq<Entry>, header: string, lines: seq<string>, r: Opened, left: string,
                   death: Death)
    requires Survives(disk, entries, header) && IsHeader(header)
    requires LinesOn(disk, lines) && OpenedAs(r, left, lines, header, death)
    ensures lines == LinesOf(entries) && AllRows(AfterHeader(lines)) && (r.Output? || r.Cut?)
    ensures Log(TitledWith(entries, header), header)
    ensures r.Output? ==>
              left == Text(LinesOf(TitledWith(entries, header)))
              && Sorted(r.completed, r.partial, Rows(AfterHeader(lines)))
    ensures r.Cut? ==> Survives(left, entries, header) || Survives(left, TitledWith(entries, header), header)
  {
    FoundAgain(disk, entries, header, lines);
    var tail :| OnDisk(disk, entries, tail, header);
    LogLines(entries, header);
    TitledIsLog(entries, header);
    hide Log, Text, Sorted, Summary;
    if r.Cut? { CutInTheTitle(entries, header, left, death); }
  }

  // A header cut short is no line yet.
  lemma CutInTheTitle(entries: seq<Entry>, header: string, left: string, death: Death)
    requires Log(entries, header) && IsHeader(header) && death.After?
    requires left == Text(LinesOf(entries))
         + Reaching(if Titled(LinesOf(entries)) then "" else header + [NEWLINE], death)
    ensures Survives(left, entries, header) || Survives(left, TitledWith(entries, header), header)
  {
    LogLines(entries, header);
    TitledIsLog(entries, header);
    hide Log, Text;
    var title := if Titled(LinesOf(entries)) then "" else header + [NEWLINE];
    var written := Reaching(title, death);
    if written == title {
      assert OnDisk(left, TitledWith(entries, header), "", header);
    } else {
      assert written == header[..death.bytes];
      assert OnDisk(left, entries, written, header);
    }
  }

  // ---- Writing an attempt ----

  ghost function WithoutTrial(entries: seq<Entry>, trial: Trial): seq<Entry> {
    if entries == [] then []
    else
      var before := WithoutTrial(entries[..|entries| - 1], trial);
      if IsRowOf(entries[|entries| - 1].line, trial) then before else before + [entries[|entries| - 1]]
  }

  lemma {:induction false} WithoutIs(entries: seq<Entry>, trial: Trial)
    ensures forall e :: e in WithoutTrial(entries, trial) <==> e in entries && !IsRowOf(e.line, trial)
    ensures LinesOf(WithoutTrial(entries, trial)) == Without(LinesOf(entries), trial)
    decreases |entries|
  {
    hide IsRowOf, LinesOf, Without;
    if entries != [] {
      var l := |entries| - 1;
      WithoutIs(entries[..l], trial);
      assert entries == entries[..l] + [entries[l]];
    }
    LinesWithout(entries, trial);
  }

  lemma {:induction false} LinesWithout(entries: seq<Entry>, trial: Trial)
    ensures LinesOf(WithoutTrial(entries, trial)) == Without(LinesOf(entries), trial)
    decreases |entries|
  {
    hide IsRowOf;
    if entries != [] {
      var l := |entries| - 1;
      var before := WithoutTrial(entries[..l], trial);
      LinesWithout(entries[..l], trial);
      assert LinesOf(entries)[..l] == LinesOf(entries[..l]);
      assert LinesOf(before + [entries[l]]) == LinesOf(before) + [entries[l].line];
    }
  }

  // The log by its entries rather than by their places.
  ghost predicate Together(entries: seq<Entry>) {
    forall a, b :: a in entries && b in entries && SameTrial(a.line, b.line) ==> a.attempt == b.attempt
  }

  lemma TogetherIsOneAttempt(entries: seq<Entry>)
    ensures Together(entries) <==> OneAttempt(entries)
  {
    hide Summary;
    if OneAttempt(entries) {
      forall a, b | a in entries && b in entries && SameTrial(a.line, b.line) ensures a.attempt == b.attempt {
        var i :| 0 <= i < |entries| && entries[i] == a;
        var j :| 0 <= j < |entries| && entries[j] == b;
        if j < i { assert SameTrial(entries[j].line, entries[i].line); }
      }
    }
    if Together(entries) {
      forall i, j | 0 <= i < j < |entries| && SameTrial(entries[i].line, entries[j].line)
        ensures entries[i].attempt == entries[j].attempt
      {
        assert entries[i] in entries && entries[j] in entries;
      }
    }
  }

  ghost predicate HasTrial(entries: seq<Entry>, trial: Trial) {
    exists e :: e in entries && IsRowOf(e.line, trial)
  }

  ghost predicate AreRowsOf(rows: seq<string>, trial: Trial) {
    forall l :: l in rows ==> IsLine(l) && IsRowOf(l, trial)
  }

  ghost function Attempt(rows: seq<string>, attempt: nat): (entries: seq<Entry>)
    ensures |entries| == |rows| && LinesOf(entries) == rows
    ensures forall e :: e in entries ==> e.attempt == attempt && e.line in rows
  {
    seq(|rows|, i requires 0 <= i < |rows| => Entry(rows[i], attempt))
  }

  // The header first, and rows after it.
  ghost predicate Shaped(entries: seq<Entry>, header: string) {
    && entries != [] && entries[0].line == header
    && forall i :: 0 <= i < |entries| ==> IsLine(entries[i].line) && (i > 0 ==> Summary(entries[i].line).Some?)
  }

  // The header is no row, so it stays first.
  lemma {:induction false} WithoutIsShaped(entries: seq<Entry>, trial: Trial, header: string)
    requires Shaped(entries, header) && IsHeader(header)
    ensures Shaped(WithoutTrial(entries, trial), header)
    decreases |entries|
  {
    hide Summary, IsLine;
    var l := |entries| - 1;
    if l > 0 { WithoutIsShaped(entries[..l], trial, header); } else { assert entries[..l] == []; }
  }

  lemma WithoutIsLog(entries: seq<Entry>, trial: Trial, header: string)
    requires entries != [] && Log(entries, header) && IsHeader(header)
    ensures WithoutTrial(entries, trial) != [] && Log(WithoutTrial(entries, trial), header)
    ensures !HasTrial(WithoutTrial(entries, trial), trial)
  {
    WithoutIsShaped(entries, trial, header);
    WithoutIs(entries, trial);
    TogetherIsOneAttempt(entries);
    TogetherIsOneAttempt(WithoutTrial(entries, trial));
    hide Summary, SameTrial, IsLine, OneAttempt;
  }

  // The rows of one attempt join a log that has none of their trial, and only such a log: written again
  // beside another attempt, a trial has rows of two.
  lemma AttemptJoins(entries: seq<Entry>, trial: Trial, rows: seq<string>, attempt: nat, header: string)
    requires entries != [] && Log(entries, header) && AreRowsOf(rows, trial)
    requires forall e :: e in entries ==> e.attempt != attempt || !IsRowOf(e.line, trial)
    ensures Log(entries + Attempt(rows, attempt), header) <==> rows == [] || !HasTrial(entries, trial)
  {
    var added := Attempt(rows, attempt);
    var after := entries + added;
    TogetherIsOneAttempt(entries);
    TogetherIsOneAttempt(after);
    forall e | e in added ensures IsLine(e.line) && IsRowOf(e.line, trial) {}
    if rows != [] && HasTrial(entries, trial) {
      var e :| e in entries && IsRowOf(e.line, trial);
      assert added[0] in after && e in after && SameTrial(e.line, added[0].line);
    } else {
      hide OneAttempt, Attempt, Summary;
      assert Together(after);
      forall i | 0 <= i < |after| ensures IsLine(after[i].line) && (i > 0 ==> Summary(after[i].line).Some?) {
        if i >= |entries| { assert after[i] in added; }
      }
    }
  }

  // ---- Rows as they are printed ----

  ghost predicate IsRowFor(row: Row, trial: Trial) {
    Unbroken(row.runKey) == trial.0 && row.trial == trial.1
  }

  // The one row of a trial of one operation, of trial 0 of a run.
  const ONE_ROW := Row("run", 1, 1, 0, 0, Some(0), "ok", _ => "")

  // Written again beside itself, as without resuming, a whole trial has rows of two attempts.
  lemma WrittenAgain(header: string)
    requires IsHeader(header)
    ensures var row := Line(Texts(ONE_ROW));
            var once := [Entry(header, 0), Entry(row, 1)];
            && Log(once, header) && Summary(row).Some? && Whole([Summary(row).value], ("run", 0))
            && !Log(once + Attempt([row], 2), header)
  {
    var row, trial: Trial := Line(Texts(ONE_ROW)), ("run", 0);
    var once := [Entry(header, 0), Entry(row, 1)];
    OneRowReadsBack();
    hide Line, Summary, Texts;
    OnceIsALog(header, row);
    OneRowIsWhole(Summary(row).value);
    assert once[1] in once && IsRowOf(once[1].line, trial);
    hide Log, AreRowsOf, HasTrial, IsRowOf;
    assert AreRowsOf([row], trial) && HasTrial(once, trial) by { OnlyOneOf(once, row, trial); }
    AttemptJoins(once, trial, [row], 2, header);
  }

  lemma OneRowReadsBack()
    ensures var row := Line(Texts(ONE_ROW));
            IsLine(row) && Summary(row) == Some(RowSummary("run", 0, 1, 1, 0, Some(0), "ok"))
  {
    RowReadsBack(ONE_ROW);
    LineIsUnbroken(Texts(ONE_ROW));
    hide Line, Summary, Texts;
    assert Unbroken("run") == "run" && Unbroken("ok") == "ok";
  }

  lemma OnceIsALog(header: string, row: string)
    requires IsHeader(header) && IsLine(row) && Summary(row).Some?
    ensures Log([Entry(header, 0), Entry(row, 1)], header)
  {
    hide Summary, IsLine;
  }

  lemma OneRowIsWhole(row: RowSummary)
    requires row == RowSummary("run", 0, 1, 1, 0, Some(0), "ok")
    ensures Whole([row], ("run", 0))
  {
    var rows := [row];
    assert IsOf(rows[0], ("run", 0), 0, 0);
    assert WholeOn(rows, ("run", 0), 1, 1);
  }

  lemma OnlyOneOf(entries: seq<Entry>, row: string, trial: Trial)
    requires IsLine(row) && IsRowOf(row, trial) && |entries| == 2 && entries[1].line == row
    ensures AreRowsOf([row], trial) && HasTrial(entries, trial)
  {
    hide IsRowOf, IsLine;
    assert entries[1] in entries;
  }

  lemma PrintedIsRowOf(row: Row, trial: Trial)
    requires IsRowFor(row, trial)
    ensures IsLine(Line(Texts(row))) && IsRowOf(Line(Texts(row)), trial)
  {
    RowReadsBack(row);
    LineIsUnbroken(Texts(row));
    hide Line, Summary, Unbroken;
  }

  method FormatRows(rows: seq<Row>, ghost trial: Trial) returns (lines: seq<string>)
    requires forall i :: 0 <= i < |rows| ==> IsRowFor(rows[i], trial)
    ensures |lines| == |rows| && AreRowsOf(lines, trial)
    ensures forall i :: 0 <= i < |rows| ==> lines[i] == Line(Texts(rows[i]))
  {
    hide Line, Texts, IsRowOf, IsLine;
    lines := [];
    for i := 0 to |rows|
      invariant |lines| == i && AreRowsOf(lines, trial)
      invariant forall j :: 0 <= j < i ==> lines[j] == Line(Texts(rows[j]))
    {
      var line := FormatRow(rows[i]);
      PrintedIsRowOf(rows[i], trial);
      lines := lines + [line];
    }
  }

  // ---- One session ----

  // The trials a run means to do, in order, what came of each, and where its process dies.
  datatype Session = Session(trials: seq<Trial>, outcome: Trial -> seq<Row>, opening: Death, removing: nat -> bool,
                             writing: nat -> Death)
  {
    // Each trial is written at most once, with rows of its own.
    ghost predicate Valid() {
      && (forall i, j :: 0 <= i < j < |trials| ==> trials[i] != trials[j])
      && (forall i, k :: 0 <= i < |trials| && 0 <= k < |outcome(trials[i])| ==>
            IsRowFor(outcome(trials[i])[k], trials[i]))
    }
  }

  // While a session runs: whatever the log has rows of was whole or not when it was opened, or has been
  // written since.
  ghost predicate Accounted(entries: seq<Entry>, completed: set<Trial>, partial: set<Trial>, written: set<Trial>,
                            attempt: nat) {
    && (forall e, t :: e in entries && IsRowOf(e.line, t) ==> t in completed || t in partial || t in written)
    && (forall e, t :: e in entries && IsRowOf(e.line, t) && e.attempt == attempt ==> t in written)
    && (forall e :: e in entries ==> e.attempt <= attempt)
  }

  // No row of a trial that was whole is lost.
  ghost predicate Keeps(before: seq<Entry>, after: seq<Entry>, completed: set<Trial>) {
    forall e, t :: e in before && t in completed && IsRowOf(e.line, t) ==> e in after
  }

  lemma AccountedAtFirst(entries: seq<Entry>, header: string, completed: set<Trial>, partial: set<Trial>, attempt: nat)
    requires Log(entries, header) && IsHeader(header) && AllRows(AfterHeader(LinesOf(entries)))
    requires Sorted(completed, partial, Rows(AfterHeader(LinesOf(entries))))
    requires attempt > 0 && forall e :: e in entries ==> e.attempt < attempt
    ensures Accounted(TitledWith(entries, header), completed, partial, {}, attempt)
    ensures Keeps(entries, TitledWith(entries, header), completed)
  {
    var titled := TitledWith(entries, header);
    hide Whole, Summary, OneAttempt;
    forall e, t | e in titled && IsRowOf(e.line, t) ensures t in completed || t in partial {
      var i :| 0 <= i < |titled| && titled[i] == e;
      assert i > 0;
      RowIsThere(entries, i, t);
    }
  }

  lemma RowIsThere(entries: seq<Entry>, i: nat, t: Trial)
    requires 0 < i < |entries| && IsRowOf(entries[i].line, t) && AllRows(AfterHeader(LinesOf(entries)))
    ensures Has(Rows(AfterHeader(LinesOf(entries))), t)
  {
    hide Summary;
    var rows := Rows(AfterHeader(LinesOf(entries)));
    assert AfterHeader(LinesOf(entries))[i - 1] == entries[i].line;
    assert TrialOf(rows[i - 1]) == t;
  }

  // What is left of the log for a trial about to be written.
  ghost function Cleared(entries: seq<Entry>, trial: Trial, partial: set<Trial>): seq<Entry> {
    if trial in partial then WithoutTrial(entries, trial) else entries
  }

  lemma ClearedIs(entries: seq<Entry>, trial: Trial, header: string, completed: set<Trial>, partial: set<Trial>,
                  written: set<Trial>, attempt: nat)
    requires entries != [] && Log(entries, header) && IsHeader(header)
    requires Accounted(entries, completed, partial, written, attempt) && trial !in completed && trial !in written
    ensures var base := Cleared(entries, trial, partial);
      && base != [] && Log(base, header) && !HasTrial(base, trial)
      && Accounted(base, completed, partial - {trial}, written, attempt) && Keeps(entries, base, completed)
      && LinesOf(base) == if trial in partial then Without(LinesOf(entries), trial) else LinesOf(entries)
  {
    if trial in partial {
      WithoutIsLog(entries, trial, header);
      WithoutIs(entries, trial);
    }
    hide Log, WithoutTrial, LinesOf, Summary;
    forall e, t | e in entries && t in completed && IsRowOf(e.line, t) ensures !IsRowOf(e.line, trial) {}
  }

  lemma AttemptIsAccounted(base: seq<Entry>, trial: Trial, rows: seq<string>, header: string, completed: set<Trial>,
                           partial: set<Trial>, written: set<Trial>, attempt: nat)
    requires base != [] && Log(base, header) && !HasTrial(base, trial) && AreRowsOf(rows, trial)
    requires Accounted(base, completed, partial, written, attempt)
    ensures Log(base + Attempt(rows, attempt), header)
    ensures Accounted(base + Attempt(rows, attempt), completed, partial, written + {trial}, attempt)
    ensures Keeps(base, base + Attempt(rows, attempt), completed)
    ensures LinesOf(base + Attempt(rows, attempt)) == LinesOf(base) + rows
  {
    AttemptJoins(base, trial, rows, attempt, header);
    hide Log, Summary, Attempt;
    var added := Attempt(rows, attempt);
    forall e, t | e in base + added && IsRowOf(e.line, t)
      ensures (t in completed || t in partial || t in written + {trial})
              && (e.attempt == attempt ==> t in written + {trial})
    {
      if e in added { assert IsRowOf(e.line, trial); }
    }
  }

  // Cut short while it is written, an attempt is some of its rows and a part of the next.
  lemma CutWhileWriting(base: seq<Entry>, trial: Trial, rows: seq<string>, header: string, completed: set<Trial>,
                        partial: set<Trial>, written: set<Trial>, attempt: nat, file: string, death: Death)
    returns (entries: seq<Entry>)
    requires base != [] && Log(base, header) && !HasTrial(base, trial) && AreRowsOf(rows, trial)
    requires Accounted(base, completed, partial, written, attempt)
    requires file == Text(LinesOf(base)) + Reaching(Text(rows), death)
    ensures Survives(file, entries, header) && Accounted(entries, completed, partial, written + {trial}, attempt)
    ensures Keeps(base, entries, completed)
  {
    hide *;
    var k, part := PartOfRows(rows, trial, death);
    AttemptIsAccounted(base, trial, rows[..k], header, completed, partial, written, attempt);
    entries := base + Attempt(rows[..k], attempt);
    TextJoins(LinesOf(base), rows[..k]);
    assert file == Text(LinesOf(entries)) + part;
    ItSurvives(file, entries, part, header);
  }

  lemma PartOfRows(rows: seq<string>, trial: Trial, death: Death) returns (k: nat, part: string)
    requires AreRowsOf(rows, trial)
    ensures k <= |rows| && IsLine(part) && Reaching(Text(rows), death) == Text(rows[..k]) + part
    ensures AreRowsOf(rows[..k], trial)
  {
    hide Text, IsLine, IsRowOf;
    var n := |Reaching(Text(rows), death)|;
    assert Text(rows)[..n] == Reaching(Text(rows), death);
    k, part := PrefixOfText(rows, n);
  }

  lemma ItSurvives(file: string, entries: seq<Entry>, part: string, header: string)
    requires Log(entries, header) && IsLine(part) && file == Text(LinesOf(entries)) + part
    ensures Survives(file, entries, header)
  {
    hide Log, Text, LinesOf;
    assert OnDisk(file, entries, part, header);
  }

  lemma WholeText(entries: seq<Entry>, file: string, header: string)
    requires file == Text(LinesOf(entries)) && Log(entries, header)
    ensures Survives(file, entries, header)
  {
    hide Log, Text, LinesOf;
    assert file + "" == file;
    assert OnDisk(file, entries, "", header);
  }

  lemma KeepsOn(a: seq<Entry>, b: seq<Entry>, c: seq<Entry>, completed: set<Trial>)
    requires Keeps(a, b, completed) && Keeps(b, c, completed)
    ensures Keeps(a, c, completed)
  {
    hide IsRowOf;
  }

  // One trial of a session: run again unless it was whole, and written over what was not.
  method RunTrial(output: CsvOutput, trial: Trial, rows: seq<Row>, removing: bool, death: Death, header: string,
                  ghost entries: seq<Entry>, ghost written: set<Trial>, ghost attempt: nat)
    returns (died: bool, ghost left: seq<Entry>)
    requires entries != [] && Log(entries, header) && IsHeader(header) && output.file == Text(LinesOf(entries))
    requires Accounted(entries, output.completed, output.partial, written, attempt) && trial !in written
    requires trial !in output.completed && forall i :: 0 <= i < |rows| ==> IsRowFor(rows[i], trial)
    modifies output
    ensures output.completed == old(output.completed)
    ensures Survives(output.file, left, header) && Keeps(entries, left, output.completed)
    ensures Accounted(left, output.completed, output.partial, written + {trial}, attempt)
    ensures !died ==> left != [] && Log(left, header) && output.file == Text(LinesOf(left))
  {
    hide *;
    var lines := FormatRows(rows, trial);
    ghost var completed, partial := output.completed, output.partial;
    LogLines(entries, header);
    ClearedIs(entries, trial, header, completed, partial, written, attempt);
    ghost var base := Cleared(entries, trial, partial);
    died := output.Write(trial, lines, removing, death, LinesOf(entries));
    if died {
      if trial in partial && removing {
        left := entries;
        WholeText(entries, output.file, header);
        StillAccounted(entries, base, trial, completed, partial, written, attempt);
      } else {
        left := CutWhileWriting(base, trial, lines, header, completed, partial - {trial}, written, attempt, output.file,
                                death);
        KeepsOn(entries, base, left, completed);
      }
    } else {
      AttemptIsAccounted(base, trial, lines, header, completed, partial - {trial}, written, attempt);
      left := base + Attempt(lines, attempt);
      KeepsOn(entries, base, left, completed);
      WholeText(left, output.file, header);
    }
  }

  lemma StillAccounted(entries: seq<Entry>, base: seq<Entry>, trial: Trial, completed: set<Trial>, partial: set<Trial>,
                       written: set<Trial>, attempt: nat)
    requires Accounted(entries, completed, partial, written, attempt)
    ensures Accounted(entries, completed, partial - {trial}, written + {trial}, attempt)
    ensures Keeps(entries, entries, completed)
  {
    hide IsRowOf;
  }

  lemma SurvivesMeans(disk: string, entries: seq<Entry>, header: string)
    requires Survives(disk, entries, header)
    ensures Log(entries, header)
  {}

  lemma AttemptsBelow(entries: seq<Entry>, header: string, attempt: nat)
    requires attempt > 0 && forall e :: e in entries ==> e.attempt < attempt
    ensures TitledWith(entries, header) != [] && forall e :: e in TitledWith(entries, header) ==> e.attempt <= attempt
  {}

  lemma TrialIsNew(session: Session, i: nat, completed: set<Trial>, partial: set<Trial>, written: set<Trial>)
    requires session.Valid() && i < |session.trials| && forall t :: t in written ==> t in session.trials[..i]
    ensures session.trials[i] !in written
    ensures forall k :: 0 <= k < |session.outcome(session.trials[i])| ==>
              IsRowFor(session.outcome(session.trials[i])[k], session.trials[i])
    ensures forall t :: t in written + {session.trials[i]} ==> t in session.trials[..i + 1]
  {
    hide IsRowFor;
    assert session.trials[..i + 1] == session.trials[..i] + [session.trials[i]];
  }

  lemma AccountedMeans(entries: seq<Entry>, completed: set<Trial>, partial: set<Trial>, written: set<Trial>,
                       attempt: nat)
    requires Accounted(entries, completed, partial, written, attempt)
    ensures forall e :: e in entries ==> e.attempt <= attempt
  {}

  // A run that resumes from what is on disk.
  method RunSession(disk: string, header: string, session: Session, ghost entries: seq<Entry>, ghost attempt: nat)
    returns (r: Opened, left: string, ghost after: seq<Entry>)
    requires IsHeader(header) && session.Valid() && Survives(disk, entries, header)
    requires attempt > 0 && forall e :: e in entries ==> e.attempt < attempt
    ensures Survives(left, after, header) && forall e :: e in after ==> e.attempt <= attempt
    ensures r.Output? || r.Cut?
    ensures AllRows(AfterHeader(LinesOf(entries)))
    ensures r.Output? ==> Sorted(r.completed, r.partial, Rows(AfterHeader(LinesOf(entries))))
    ensures r.Output? ==> Keeps(entries, after, r.completed)
  {
    hide *;
    ghost var lines;
    r, left, lines := Open(disk, header, session.opening);
    FoundAgain(disk, entries, header, lines);
    SurvivesMeans(disk, entries, header);
    LogLines(entries, header);
    AttemptsBelow(entries, header, attempt);
    if r.Cut? {
      if session.opening.AtOnce? {
        after := entries;
      } else {
        OpensAgain(disk, entries, header, lines, r, left, session.opening);
        after := entries;
        if !Survives(left, entries, header) { after := TitledWith(entries, header); }
      }
      return;
    }
    OpensAgain(disk, entries, header, lines, r, left, session.opening);
    AccountedAtFirst(entries, header, r.completed, r.partial, attempt);
    after := TitledWith(entries, header);
    WholeText(after, left, header);
    var output := new CsvOutput(left, r.completed, r.partial);
    ghost var written: set<Trial> := {};
    for i := 0 to |session.trials|
      invariant fresh(output) && output.completed == r.completed && output.file == left == Text(LinesOf(after))
      invariant after != [] && Log(after, header) && Keeps(entries, after, r.completed)
      invariant Accounted(after, r.completed, output.partial, written, attempt)
      invariant forall t :: t in written ==> t in session.trials[..i]
    {
      var trial := session.trials[i];
      TrialIsNew(session, i, r.completed, output.partial, written);
      if trial !in output.completed {
        var died;
        ghost var before := after;
        died, after := RunTrial(output, trial, session.outcome(trial), session.removing(i), session.writing(i), header,
                                before, written, attempt);
        KeepsOn(entries, before, after, r.completed);
        left, written := output.file, written + {trial};
        if died {
          AccountedMeans(after, r.completed, output.partial, written, attempt);
          return;
        }
      }
    }
    AccountedMeans(after, r.completed, output.partial, written, attempt);
    WholeText(after, left, header);
  }

  // However many runs there have been, and wherever each of them stopped, the file is a log of one attempt at
  // each trial: the next run opens it, and finds whole exactly the trials that are.
  method RunSessions(header: string, sessions: seq<Session>) returns (disk: string, ghost entries: seq<Entry>)
    requires IsHeader(header) && forall i :: 0 <= i < |sessions| ==> sessions[i].Valid()
    ensures Survives(disk, entries, header)
    ensures exists log: seq<Entry> :: Survives(disk, log, header)
  {
    hide *;
    disk, entries := "", [];
    NothingSurvives(header);
    for i := 0 to |sessions|
      invariant Survives(disk, entries, header) && forall e :: e in entries ==> e.attempt <= i
    {
      var r;
      r, disk, entries := RunSession(disk, header, sessions[i], entries, i + 1);
    }
  }

  lemma NothingSurvives(header: string)
    ensures Survives("", [], header)
  {
    assert OnDisk("", [], "", header);
  }

  // What a reader of the file is promised of any log on disk.
  lemma OneAttemptEach(disk: string, entries: seq<Entry>, header: string, i: nat, j: nat)
    requires Survives(disk, entries, header) && i < |entries| && j < |entries|
    requires SameTrial(entries[i].line, entries[j].line)
    ensures entries[i].attempt == entries[j].attempt
  {
    hide Summary;
    if j < i { assert SameTrial(entries[j].line, entries[i].line); }
  }

  // The header that is written is one.
  lemma ColumnsAreAHeader(names: seq<string>)
    requires AreColumns(names)
    ensures IsHeader(Joined(names))
  {
    HeaderIsNoRow(names);
    hide Joined, Summary;
  }
}
