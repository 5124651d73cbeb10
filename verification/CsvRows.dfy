// A row of the benchmark's CSV and what is read back of it: the columns, FormatRow, CsvHeader and
// SummariseRow, bench/record.cc.

module CsvRows {
  import opened Wrappers
  import opened CsvLines

  const COLUMNS: nat := 61
  const RUN_KEY: nat := 2
  const PROCESSES: nat := 20
  const OPS: nat := 26
  const TRIAL: nat := 35
  const PROCESS_INDEX: nat := 36
  const OP_INDEX: nat := 37
  const STATUS: nat := 41

  const MAX_UNSIGNED_LONG: nat := 0xFFFF_FFFF_FFFF_FFFF
  type Unsigned = n: nat | n < 0x1_0000_0000

  // ---- Numbers ----

  predicate IsDigit(c: char) { '0' <= c <= '9' }

  function DigitOf(c: char): (d: nat)
    requires IsDigit(c)
    ensures d < 10
  {
    c as nat - '0' as nat
  }

  function Decimal(n: nat): (text: string)
    ensures text != "" && forall c :: c in text ==> IsDigit(c)
  {
    if n < 10 then [('0' as nat + n) as char] else Decimal(n / 10) + [('0' as nat + n % 10) as char]
  }

  // The leading digits of a text, and their value.
  function Leading(text: string): (n: nat)
    ensures n <= |text| && (forall i :: 0 <= i < n ==> IsDigit(text[i])) && (n < |text| ==> !IsDigit(text[n]))
  {
    if text != "" && IsDigit(text[0]) then 1 + Leading(text[1..]) else 0
  }

  function Value(digits: string): nat
    requires forall i :: 0 <= i < |digits| ==> IsDigit(digits[i])
  {
    if digits == "" then 0 else Value(digits[..|digits| - 1]) * 10 + DigitOf(digits[|digits| - 1])
  }

  predicate IsSpace(c: char) { c == ' ' || 9 <= c as nat <= 13 }

  function SkipSpace(text: string): string {
    if text != "" && IsSpace(text[0]) then SkipSpace(text[1..]) else text
  }

  // What std::stoul makes of a text, cut to an unsigned: leading spaces and a sign are read over and whatever
  // follows the digits is ignored; no digits, or too many, is an error.
  function ToUnsigned(text: string): Option<Unsigned> {
    var trimmed := SkipSpace(text);
    var negative := trimmed != "" && trimmed[0] == '-';
    var signed := negative || (trimmed != "" && trimmed[0] == '+');
    var digits := if signed then trimmed[1..] else trimmed;
    var n := Leading(digits);
    if n == 0 then None
    else
      Cut(Value(digits[..n]), negative)
  }

  function Cut(value: nat, negative: bool): Option<Unsigned> {
    if value > MAX_UNSIGNED_LONG then None
    else
      var wrapped: nat := if negative && value > 0 then MAX_UNSIGNED_LONG + 1 - value else value;
      Some(wrapped % 0x1_0000_0000)
  }

  lemma CutSmall(value: Unsigned)
    ensures Cut(value, false) == Some(value)
  {}

  lemma DigitFirst(text: string)
    requires text != "" && IsDigit(text[0])
    ensures SkipSpace(text) == text && text[0] != '-' && text[0] != '+'
  {}

  lemma {:induction false} ValueOfDecimal(n: nat)
    ensures Value(Decimal(n)) == n
  {
    var text := Decimal(n);
    var l := |text| - 1;
    if n < 10 {
      assert text[..l] == "";
    } else {
      ValueOfDecimal(n / 10);
      assert text[..l] == Decimal(n / 10);
    }
  }

  lemma {:induction false} AllDigits(text: string)
    requires forall c :: c in text ==> IsDigit(c)
    ensures Leading(text) == |text|
  {
    if text != "" {
      assert forall c :: c in text[1..] ==> c in text;
      AllDigits(text[1..]);
    }
  }

  lemma DigitsAreRead(text: string)
    requires text != "" && (forall c :: c in text ==> IsDigit(c))
    requires forall i :: 0 <= i < |text| ==> IsDigit(text[i])
    requires Value(text) < 0x1_0000_0000
    ensures ToUnsigned(text) == Some(Value(text))
  {
    AllDigits(text);
    DigitFirst(text);
    CutSmall(Value(text));
    hide Value, Leading, SkipSpace, IsDigit, Cut;
    assert text[..|text|] == text;
  }

  // A number reads back.
  lemma NumberReadsBack(n: Unsigned)
    ensures ToUnsigned(Decimal(n)) == Some(n)
  {
    hide Decimal, ToUnsigned, Value, IsDigit;
    forall i | 0 <= i < |Decimal(n)| ensures IsDigit(Decimal(n)[i]) {
      assert Decimal(n)[i] in Decimal(n);
    }
    ValueOfDecimal(n);
    DigitsAreRead(Decimal(n));
  }

  lemma {:induction false} PlainReadsBack(text: string)
    requires forall c :: c in text ==> !IsBreak(c)
    ensures Unbroken(text) == text
  {
    forall i | 0 <= i < |text| ensures Unbroken(text)[i] == text[i] {
      assert text[i] in text;
    }
  }

  lemma DigitsReadBack(n: Unsigned)
    ensures Unbroken(Decimal(n)) == Decimal(n) != ""
  {
    PlainReadsBack(Decimal(n));
  }

  // ---- Rows ----

  // The columns that are read back, and the texts of the others.
  datatype Row = Row(runKey: string, processes: Unsigned, ops: Unsigned, trial: Unsigned, processIndex: Unsigned,
                     opIndex: Option<Unsigned>, status: string, others: nat -> string)

  datatype RowSummary = RowSummary(runKey: string, trial: Unsigned, processes: Unsigned, ops: Unsigned,
                                   processIndex: Unsigned, opIndex: Option<Unsigned>, status: string)

  function Column(row: Row, index: nat): string {
    if index == RUN_KEY then row.runKey
    else if index == PROCESSES then Decimal(row.processes)
    else if index == OPS then Decimal(row.ops)
    else if index == TRIAL then Decimal(row.trial)
    else if index == PROCESS_INDEX then Decimal(row.processIndex)
    else if index == OP_INDEX then (if row.opIndex.None? then "" else Decimal(row.opIndex.value))
    else if index == STATUS then row.status
    else row.others(index)
  }

  function Texts(row: Row): (texts: seq<string>)
    ensures |texts| == COLUMNS
  {
    seq(COLUMNS, i requires 0 <= i < COLUMNS => Column(row, i))
  }

  method FormatRow(row: Row) returns (line: string)
    ensures line == Line(Texts(row))
  {
    line := FormatFields(Texts(row));
  }

  // What the fields of a line say, if they are a row's.
  function SummaryOf(fields: seq<string>): Option<RowSummary> {
    if |fields| != COLUMNS then None
    else
      var trial, processes, ops := ToUnsigned(fields[TRIAL]), ToUnsigned(fields[PROCESSES]), ToUnsigned(fields[OPS]);
      var processIndex := ToUnsigned(fields[PROCESS_INDEX]);
      var opIndex := if fields[OP_INDEX] == "" then None else ToUnsigned(fields[OP_INDEX]);
      if trial.None? || processes.None? || ops.None? || processIndex.None? || (fields[OP_INDEX] != "" && opIndex.None?)
      then None
      else Some(RowSummary(fields[RUN_KEY], trial.value, processes.value, ops.value, processIndex.value, opIndex,
                             fields[STATUS]))
  }

  function Summary(line: string): Option<RowSummary> {
    SummaryOf(Parsed(line, [""], false))
  }

  method SummariseRow(line: string) returns (summary: Option<RowSummary>)
    ensures summary == Summary(line)
  {
    var fields := ParseCsvLine(line);
    summary := SummaryOf(fields);
  }

  // A printed row reads back as what it was printed from.
  lemma RowReadsBack(row: Row)
    ensures Summary(Line(Texts(row)))
         == Some(RowSummary(Unbroken(row.runKey), row.trial, row.processes, row.ops, row.processIndex, row.opIndex,
                              Unbroken(row.status)))
  {
    ParsingUndoesPrinting(Texts(row));
    ColumnsReadBack(row);
    hide *;
    var fields := Unbrokens(Texts(row));
    ShapeReadsBack(row);
    NumberReadsBack(row.trial);
    NumberReadsBack(row.processes);
    NumberReadsBack(row.ops);
    NumberReadsBack(row.processIndex);
    if row.opIndex.Some? { NumberReadsBack(row.opIndex.value); }
    TheySum(fields, row);
    SummaryIs(Line(Texts(row)));
  }

  lemma ShapeReadsBack(row: Row)
    ensures |Unbrokens(Texts(row))| == COLUMNS
  {}

  lemma SummaryIs(line: string)
    ensures Summary(line) == SummaryOf(Parsed(line, [""], false))
  {}

  lemma TheySum(fields: seq<string>, row: Row)
    requires |fields| == COLUMNS && fields[RUN_KEY] == Unbroken(row.runKey) && fields[STATUS] == Unbroken(row.status)
    requires ToUnsigned(fields[PROCESSES]) == Some(row.processes) && ToUnsigned(fields[OPS]) == Some(row.ops)
    requires ToUnsigned(fields[TRIAL]) == Some(row.trial)
    requires ToUnsigned(fields[PROCESS_INDEX]) == Some(row.processIndex)
    requires if row.opIndex.None? then fields[OP_INDEX] == ""
             else fields[OP_INDEX] != "" && ToUnsigned(fields[OP_INDEX]) == row.opIndex
    ensures SummaryOf(fields) == Some(RowSummary(Unbroken(row.runKey), row.trial, row.processes, row.ops,
                                                   row.processIndex, row.opIndex, Unbroken(row.status)))
  {
    hide ToUnsigned, Unbroken;
  }

  lemma ColumnsReadBack(row: Row)
    ensures var fields := Unbrokens(Texts(row));
      && |fields| == COLUMNS && fields[RUN_KEY] == Unbroken(row.runKey) && fields[STATUS] == Unbroken(row.status)
      && fields[PROCESSES] == Decimal(row.processes) && fields[OPS] == Decimal(row.ops)
      && fields[TRIAL] == Decimal(row.trial) && fields[PROCESS_INDEX] == Decimal(row.processIndex)
      && (if row.opIndex.None? then fields[OP_INDEX] == ""
          else fields[OP_INDEX] != "" && fields[OP_INDEX] == Decimal(row.opIndex.value))
  {
    hide Unbroken, Decimal;
    DigitsReadBack(row.trial);
    DigitsReadBack(row.processes);
    DigitsReadBack(row.ops);
    DigitsReadBack(row.processIndex);
    NothingReadsBack();
    if row.opIndex.Some? { DigitsReadBack(row.opIndex.value); }
  }

  lemma NothingReadsBack()
    ensures Unbroken("") == ""
  {}

  // ---- The header ----

  predicate IsPlain(name: string) {
    name != "" && !NeedsQuotes(name) && forall c :: c in name ==> !IsBreak(c)
  }

  function Joined(names: seq<string>): string
    requires names != []
  {
    if |names| == 1 then names[0] else Joined(names[..|names| - 1]) + "," + names[|names| - 1]
  }

  // The names of the columns, none of which needs quoting, and that of the trial begins with no digit.
  ghost predicate AreColumns(names: seq<string>) {
    |names| == COLUMNS && names[TRIAL] == "trial" && forall i :: 0 <= i < |names| ==> IsPlain(names[i])
  }

  method CsvHeader(names: seq<string>) returns (header: string)
    requires AreColumns(names)
    ensures header == Joined(names)
  {
    header := "";
    for i := 0 to |names|
      invariant i == 0 ==> header == ""
      invariant i > 0 ==> header == Joined(names[..i]) && header != ""
    {
      if header != "" {
        header := header + ",";
      }
      header := header + names[i];
      assert names[..i + 1][..i] == names[..i];
    }
    assert names[..|names|] == names;
  }

  lemma {:induction false} JoinedIsLine(names: seq<string>)
    requires names != [] && forall i :: 0 <= i < |names| ==> IsPlain(names[i])
    ensures Joined(names) == Line(names)
    decreases |names|
  {
    var l := |names| - 1;
    PlainReadsBack(names[l]);
    if l > 0 { JoinedIsLine(names[..l]); }
  }

  // The header is one line, and is no row.
  lemma HeaderIsNoRow(names: seq<string>)
    requires AreColumns(names)
    ensures Summary(Joined(names)).None? && Joined(names) != ""
    ensures forall c :: c in Joined(names) ==> !IsBreak(c)
  {
    JoinedIsLine(names);
    ParsingUndoesPrinting(names);
    LineIsUnbroken(names);
    PlainReadsBack(names[TRIAL]);
    hide Parsed, Line;
    assert Joined(names) != "";
    TrialIsNoNumber();
  }

  lemma TrialIsNoNumber()
    ensures ToUnsigned("trial").None?
  {
    assert !IsSpace('t') && !IsDigit('t');
  }
}
