// The benchmark's CSV as a log that survives being cut short: DropLineCutShort and CsvOutput,
// bench/record.cc, and the loop that resumes from it, bench/main.cc.

module ResumeLogs {
  import opened Wrappers
  import opened CsvRows
  import opened Coverages

  // ---- Text and lines ----

  const NEWLINE: char := '\n'

  predicate IsLine(line: string) { NEWLINE !in line }

  function Text(lines: seq<string>): string {
    if lines == [] then "" else Text(lines[..|lines| - 1]) + lines[|lines| - 1] + [NEWLINE]
  }

  predicate EndsLine(text: string) { text == "" || text[|text| - 1] == NEWLINE }

  lemma {:induction false} TextJoins(a: seq<string>, b: seq<string>)
    ensures Text(a + b) == Text(a) + Text(b)
    decreases |b|
  {
    if b == [] {
      assert a + b == a;
    } else {
      var l := |b| - 1;
      assert (a + b)[..|a| + l] == a + b[..l];
      TextJoins(a, b[..l]);
    }
  }

  lemma TextOfOne(line: string)
    ensures Text([line]) == line + [NEWLINE]
  {
    assert [line][..0] == [];
  }

  lemma TextEndsLine(lines: seq<string>)
    ensures EndsLine(Text(lines))
  {}

  // A text is whole lines and a part that ends none in one way only.
  lemma {:induction false} LinesAreUnique(a: seq<string>, tailA: string, b: seq<string>, tailB: string)
    requires forall l :: l in a || l in b ==> IsLine(l)
    requires IsLine(tailA) && IsLine(tailB) && Text(a) + tailA == Text(b) + tailB
    ensures a == b && tailA == tailB
    decreases |a|
  {
    SameEnd(Text(a), tailA, Text(b), tailB);
    if a != [] && b != [] {
      var k, m := |a| - 1, |b| - 1;
      var restA, restB := Text(a[..k]) + a[k], Text(b[..m]) + b[m];
      assert Text(a) == restA + [NEWLINE] && Text(b) == restB + [NEWLINE];
      assert restA == Text(a)[..|Text(a)| - 1] && restB == Text(b)[..|Text(b)| - 1];
      assert a[k] in a && b[m] in b;
      LinesAreUnique(a[..k], a[k], b[..m], b[m]);
      assert a == a[..k] + [a[k]] && b == b[..m] + [b[m]];
    }
  }

  // The last newline is where it is.
  lemma SameEnd(a: string, tailA: string, b: string, tailB: string)
    requires EndsLine(a) && EndsLine(b) && IsLine(tailA) && IsLine(tailB) && a + tailA == b + tailB
    ensures a == b && tailA == tailB
  {
    var text := a + tailA;
    InTail(a, tailA, |b| - 1);
    InTail(b, tailB, |a| - 1);
    assert a == text[..|a|] && b == text[..|b|] && tailA == text[|a|..] && tailB == text[|b|..];
  }

  lemma InTail(a: string, tail: string, i: int)
    ensures |a| <= i < |a| + |tail| ==> (a + tail)[i] in tail
  {
    if |a| <= i < |a| + |tail| { assert (a + tail)[i] == tail[i - |a|]; }
  }

  // However much of some lines reached the disk, it is whole lines of them and a part of the next.
  lemma {:induction false} PrefixOfText(lines: seq<string>, n: nat) returns (whole: nat, part: string)
    requires n <= |Text(lines)| && forall l :: l in lines ==> IsLine(l)
    ensures whole <= |lines| && IsLine(part) && Text(lines)[..n] == Text(lines[..whole]) + part
    ensures n == |Text(lines)| ==> whole == |lines| && part == ""
    decreases |lines|
  {
    if lines == [] {
      whole, part := 0, "";
    } else {
      var l := |lines| - 1;
      var before, last := Text(lines[..l]), lines[l];
      if n == |Text(lines)| {
        whole, part := |lines|, "";
        assert lines[..|lines|] == lines && Text(lines)[..n] == Text(lines);
      } else if n <= |before| {
        whole, part := PrefixOfText(lines[..l], n);
        if n == |before| { whole, part := l, ""; }
        assert Text(lines)[..n] == before[..n];
        assert lines[..l][..whole] == lines[..whole];
      } else {
        whole, part := l, last[..n - |before|];
        assert last in lines;
        assert Text(lines)[..n] == before + part;
      }
    }
  }

  // Cut back to its last newline: the part after it is no line.
  method DropLineCutShort(text: string) returns (kept: string)
    ensures EndsLine(kept) && kept <= text && IsLine(text[|kept|..])
  {
    if text == "" || text[|text| - 1] == NEWLINE {
      return text;
    }
    var keep := |text|;
    while keep > 0 && text[keep - 1] != NEWLINE
      invariant 0 <= keep <= |text| && IsLine(text[keep..])
    {
      keep := keep - 1;
      assert text[keep..] == [text[keep]] + text[keep + 1..];
    }
    kept := text[..keep];
  }

  lemma DropsTheTail(text: string, kept: string, lines: seq<string>, tail: string)
    requires EndsLine(kept) && kept <= text && IsLine(text[|kept|..])
    requires IsLine(tail) && text == Text(lines) + tail
    ensures kept == Text(lines)
  {
    TextEndsLine(lines);
    SameEnd(kept, text[|kept|..], Text(lines), tail);
  }

  // The lines of a text that ends each of them.
  method Lines(text: string) returns (lines: seq<string>)
    requires EndsLine(text)
    ensures Text(lines) == text && forall l :: l in lines ==> IsLine(l)
  {
    lines := [];
    var line := "";
    assert text[..0] == "";
    for i := 0 to |text|
      invariant text[..i] == Text(lines) + line && IsLine(line) && forall l :: l in lines ==> IsLine(l)
      invariant i > 0 && text[i - 1] == NEWLINE ==> line == ""
    {
      assert text[..i + 1] == text[..i] + [text[i]];
      if text[i] == NEWLINE {
        ghost var before := lines;
        lines := lines + [line];
        assert lines[..|lines| - 1] == before;
        line := "";
      } else {
        line := line + [text[i]];
      }
    }
    assert text[..|text|] == text;
    if text == "" { assert line == ""; }
  }

  // ---- Opening ----

  datatype Opened = Output(completed: set<Trial>, partial: set<Trial>) | OtherVersion | NotARow(number: nat) | Cut

  // Where the process dies: never, before it has written anything, or with so many bytes of what it is writing
  // on disk.
  datatype Death = Never | AtOnce | After(bytes: nat)

  // As much of a text as reaches the disk.
  function Reaching(text: string, death: Death): string {
    match death
    case Never => text
    case AtOnce => ""
    case After(n) => if n < |text| then text[..n] else text
  }

  ghost predicate AllRows(lines: seq<string>) {
    forall l :: l in lines ==> Summary(l).Some?
  }

  ghost function Rows(lines: seq<string>): (rows: seq<RowSummary>)
    requires AllRows(lines)
    ensures |rows| == |lines| && forall i :: 0 <= i < |lines| ==> rows[i] == Summary(lines[i]).value
  {
    seq(|lines|, i requires 0 <= i < |lines| => assert lines[i] in lines; Summary(lines[i]).value)
  }

  ghost function AfterHeader(lines: seq<string>): seq<string> {
    if lines == [] then [] else lines[1..]
  }

  // The trials of a map of coverages, as they are known so far.
  ghost predicate Known(trials: map<Trial, Coverage>, rows: seq<RowSummary>) {
    forall t: Trial :: (t in trials <==> Has(rows, t)) && (t in trials ==> trials[t] == CoverageOf(rows, t))
  }

  lemma KnowsNone()
    ensures Known(map[], [])
  {}

  lemma KnowsOneMore(trials: map<Trial, Coverage>, rows: seq<RowSummary>, row: RowSummary)
    requires Known(trials, rows)
    ensures var t := TrialOf(row);
            Known(trials[t := (if t in trials then trials[t] else NO_COVERAGE).With(row)], rows + [row])
  {
    hide Has;
    var t := TrialOf(row);
    assert (rows + [row])[..|rows|] == rows;
    if t !in trials { NoneOf(rows, t); }
    forall u: Trial ensures Has(rows + [row], u) <==> Has(rows, u) || t == u { HasMore(rows, row, u); }
  }

  lemma {:induction false} NoneOf(rows: seq<RowSummary>, t: Trial)
    requires !Has(rows, t)
    ensures CoverageOf(rows, t) == NO_COVERAGE
    decreases |rows|
  {
    if rows != [] {
      var l := |rows| - 1;
      assert forall i :: 0 <= i < l ==> rows[..l][i] == rows[i];
      NoneOf(rows[..l], t);
    }
  }

  // What the rows of a file say of every trial.
  method CoverRows(lines: seq<string>) returns (trials: map<Trial, Coverage>, bad: Option<nat>)
    ensures bad.None? <==> AllRows(lines)
    ensures bad.Some? ==> bad.value < |lines| && Summary(lines[bad.value]).None?
    ensures bad.None? ==> Known(trials, Rows(lines))
  {
    hide Summary, Known, CoverageOf;
    trials := map[];
    KnowsNone();
    ghost var rows: seq<RowSummary> := [];
    for i := 0 to |lines|
      invariant |rows| == i && Known(trials, rows)
      invariant forall j :: 0 <= j < i ==> Summary(lines[j]) == Some(rows[j])
    {
      var row := SummariseRow(lines[i]);
      if row.None? {
        assert lines[i] in lines;
        return trials, Some(i);
      }
      KnowsOneMore(trials, rows, row.value);
      var t := TrialOf(row.value);
      trials := trials[t := (if t in trials then trials[t] else NO_COVERAGE).With(row.value)];
      rows := rows + [row.value];
    }
    bad := None;
    assert rows == Rows(lines);
  }

  // The trials the rows hold whole, and those they hold rows of that are not.
  ghost predicate Sorted(completed: set<Trial>, partial: set<Trial>, rows: seq<RowSummary>) {
    forall t: Trial :: (t in completed <==> Whole(rows, t)) && (t in partial <==> Has(rows, t) && !Whole(rows, t))
  }

  lemma ItIsSorted(trials: map<Trial, Coverage>, completed: set<Trial>, partial: set<Trial>, rows: seq<RowSummary>)
    requires Known(trials, rows)
    requires forall t: Trial :: t in completed <==> t in trials && trials[t].Complete()
    requires forall t: Trial :: t in partial <==> t in trials && !trials[t].Complete()
    ensures Sorted(completed, partial, rows)
  {
    hide CoverageOf, Coverage.Complete, WholeOn;
    forall t: Trial ensures Whole(rows, t) ==> Has(rows, t) {}
    forall t: Trial ensures CoverageOf(rows, t).Complete() <==> Whole(rows, t) { CompleteIsWhole(rows, t); }
    hide Whole, Has;
  }

  ghost predicate Titled(lines: seq<string>) { lines != [] && lines[0] != "" }

  // What Open makes of the lines it finds: a file of another version's, or with a line that is no row, is
  // left with just those lines; any other gets a header if it has none.
  ghost predicate OpenedAs(r: Opened, left: string, lines: seq<string>, header: string, death: Death) {
    var title := if Titled(lines) then "" else header + [NEWLINE];
    match r
    case OtherVersion => Titled(lines) && lines[0] != header && left == Text(lines)
    case NotARow(_) =>
      (Titled(lines) ==> lines[0] == header) && !AllRows(AfterHeader(lines)) && left == Text(lines)
    case Output(completed, partial) =>
      && (Titled(lines) ==> lines[0] == header) && AllRows(AfterHeader(lines)) && !death.AtOnce?
      && left == Text(lines) + title && Sorted(completed, partial, Rows(AfterHeader(lines)))
    case Cut =>
      && (Titled(lines) ==> lines[0] == header) && AllRows(AfterHeader(lines))
      && death.After? && left == Text(lines) + Reaching(title, death)
  }

  // The whole lines on disk.
  ghost predicate LinesOn(disk: string, lines: seq<string>) {
    && Text(lines) <= disk && IsLine(disk[|Text(lines)|..])
    && forall l :: l in lines ==> IsLine(l)
  }

  // What is on disk is cut back to its last newline and its trials sorted. A process that dies at once leaves
  // it as it was.
  method Open(disk: string, header: string, death: Death) returns (r: Opened, left: string, ghost lines: seq<string>)
    ensures LinesOn(disk, lines)
    ensures death.AtOnce? ==> r.Cut? && left == disk
    ensures !death.AtOnce? ==> OpenedAs(r, left, lines, header, death)
  {
    hide *;
    var kept := DropLineCutShort(disk);
    var found := Lines(kept);
    lines := found;
    ItIsOn(disk, lines);
    if death.AtOnce? {
      return Cut, disk, lines;
    }
    left := kept;
    var hasHeader := false;
    if |found| > 0 && found[0] != "" {
      if found[0] != header {
        r := OtherVersion;
        AnotherVersion(lines, header, death);
        return;
      }
      hasHeader := true;
    }
    var trials, bad := CoverRows(if |found| > 0 then found[1..] else []);
    RowsAfter(lines);
    if bad.Some? {
      r := NotARow(bad.value + 2);
      NoRow(lines, header, death, bad.value + 2);
      return;
    }
    var title := if hasHeader then "" else header + [NEWLINE];
    left := kept + Reaching(title, death);
    if death.After? {
      r := Cut;
      WasCut(lines, header, death);
      return;
    }
    AllReaches(title);
    var completed := set t | t in trials && trials[t].Complete();
    var partial := set t | t in trials && !trials[t].Complete();
    ItIsSorted(trials, completed, partial, Rows(AfterHeader(lines)));
    r := Output(completed, partial);
    IsOpen(r, left, lines, header, death);
  }

  lemma ItIsOn(disk: string, lines: seq<string>)
    requires Text(lines) <= disk && IsLine(disk[|Text(lines)|..]) && forall l :: l in lines ==> IsLine(l)
    ensures LinesOn(disk, lines)
  {}

  lemma AnotherVersion(lines: seq<string>, header: string, death: Death)
    requires lines != [] && lines[0] != "" && lines[0] != header
    ensures OpenedAs(OtherVersion, Text(lines), lines, header, death)
  {}

  lemma RowsAfter(lines: seq<string>)
    ensures AfterHeader(lines) == if |lines| > 0 then lines[1..] else []
  {}

  lemma NoRow(lines: seq<string>, header: string, death: Death, number: nat)
    requires lines != [] && lines[0] != "" ==> lines[0] == header
    requires !AllRows(AfterHeader(lines))
    ensures OpenedAs(NotARow(number), Text(lines), lines, header, death)
  {
    hide Text, AllRows;
  }

  lemma WasCut(lines: seq<string>, header: string, death: Death)
    requires lines != [] && lines[0] != "" ==> lines[0] == header
    requires AllRows(AfterHeader(lines)) && death.After?
    ensures OpenedAs(Cut, Text(lines)
                     + Reaching(if lines != [] && lines[0] != "" then "" else header + [NEWLINE], death),
                     lines, header, death)
  {
    hide Text, AllRows, Reaching;
  }

  lemma AllReaches(text: string)
    ensures Reaching(text, Never) == text
  {}

  lemma IsOpen(r: Opened, left: string, lines: seq<string>, header: string, death: Death)
    requires r.Output? && AllRows(AfterHeader(lines)) && !death.AtOnce?
    requires lines != [] && lines[0] != "" ==> lines[0] == header
    requires left == Text(lines) + if lines != [] && lines[0] != "" then "" else header + [NEWLINE]
    requires Sorted(r.completed, r.partial, Rows(AfterHeader(lines)))
    ensures OpenedAs(r, left, lines, header, death)
  {
    hide Text, AllRows, Sorted;
  }

  // ---- Writing ----

  predicate IsRowOf(line: string, trial: Trial) {
    var row := Summary(line);
    row.Some? && TrialOf(row.value) == trial
  }

  // The lines that are not rows of a trial.
  function Without(lines: seq<string>, trial: Trial): (kept: seq<string>)
    ensures forall l :: l in kept <==> l in lines && !IsRowOf(l, trial)
  {
    if lines == [] then []
    else
      var l := |lines| - 1;
      assert forall x :: x in lines <==> x in lines[..l] || x == lines[l];
      if IsRowOf(lines[l], trial) then Without(lines[..l], trial) else Without(lines[..l], trial) + [lines[l]]
  }

  class CsvOutput {
    // What is on disk.
    var file: string
    var completed: set<Trial>
    var partial: set<Trial>

    constructor (file: string, completed: set<Trial>, partial: set<Trial>)
      ensures this.file == file && this.completed == completed && this.partial == partial
    {
      this.file, this.completed, this.partial := file, completed, partial;
    }

    // Drops a trial from the file: what stays goes to a new file first, which then replaces the old in one
    // move, so that a death leaves one or the other.
    method Remove(trial: Trial, dies: bool, ghost lines: seq<string>)
      requires file == Text(lines) && forall l :: l in lines ==> IsLine(l)
      modifies this`file
      ensures file == if dies then old(file) else Text(Without(lines, trial))
    {
      hide *;
      TextEndsLine(lines);
      var existing := Lines(file);
      NothingMore(file);
      OneReading(existing, lines);
      var kept := "";
      NoText(lines, trial);
      for i := 0 to |existing|
        invariant kept == Text(Without(lines[..i], trial))
        invariant file == old(file)
      {
        var row := SummariseRow(existing[i]);
        KeepsLine(lines, i, trial);
        if row.None? || TrialOf(row.value) != trial {
          kept := kept + existing[i] + [NEWLINE];
        }
      }
      assert lines[..|lines|] == lines;
      if !dies {
        file := kept;
      }
    }

    // One trial's rows, after any the file holds of an attempt at it that is not whole have been taken out.
    method Write(trial: Trial, rows: seq<string>, removing: bool, death: Death, ghost lines: seq<string>)
      returns (died: bool)
      requires file == Text(lines) && forall l :: l in lines ==> IsLine(l)
      modifies this`file, this`partial
      ensures partial == old(partial) - {trial}
      ensures died && trial in old(partial) && removing ==> file == old(file)
      ensures died && !(trial in old(partial) && removing) ==>
                file == Text(if trial in old(partial) then Without(lines, trial) else lines)
                    + Reaching(Text(rows), death)
      ensures !died ==> file == Text((if trial in old(partial) then Without(lines, trial) else lines) + rows)
      ensures died <==> (trial in old(partial) && removing) || !death.Never?
    {
      ghost var left := lines;
      if trial in partial {
        partial := partial - {trial};
        Remove(trial, removing, lines);
        if removing {
          return true;
        }
        left := Without(lines, trial);
      } else {
        assert partial == partial - {trial};
      }
      var text := "";
      assert rows[..0] == [];
      for i := 0 to |rows|
        invariant text == Text(rows[..i])
      {
        assert rows[..i + 1][..i] == rows[..i];
        text := text + rows[i] + [NEWLINE];
      }
      assert rows[..|rows|] == rows;
      file := file + Reaching(text, death);
      TextJoins(left, rows);
      died := !death.Never?;
    }
  }

  lemma NothingMore(text: string)
    ensures IsLine("") && text + "" == text
  {}

  lemma OneReading(a: seq<string>, b: seq<string>)
    requires Text(a) == Text(b) && forall l :: l in a || l in b ==> IsLine(l)
    ensures a == b
  {
    hide Text;
    assert Text(a) + "" == Text(b) + "";
    LinesAreUnique(a, "", b, "");
  }

  lemma NoText(lines: seq<string>, trial: Trial)
    ensures Text(Without(lines[..0], trial)) == ""
  {}

  lemma KeepsLine(lines: seq<string>, i: nat, trial: Trial)
    requires i < |lines|
    ensures Text(Without(lines[..i + 1], trial))
         == Text(Without(lines[..i], trial)) + if IsRowOf(lines[i], trial) then "" else lines[i] + [NEWLINE]
    ensures IsRowOf(lines[i], trial) <==> Summary(lines[i]).Some? && TrialOf(Summary(lines[i]).value) == trial
  {
    hide Summary;
    var before := Without(lines[..i], trial);
    assert lines[..i + 1][..i] == lines[..i];
    if !IsRowOf(lines[i], trial) {
      assert (before + [lines[i]])[..|before|] == before;
    }
  }
}
