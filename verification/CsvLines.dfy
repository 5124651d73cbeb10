// A CSV line printed and parsed: Field, FormatRow and ParseCsvLine, bench/record.cc. A line is RFC 4180's
// (section 2), save that a line break inside a field is printed as a space.

module CsvLines {

  const QUOTE: char := '"'

  predicate IsBreak(c: char) { c == '\n' || c == '\r' }

  // A field as it reads back: its line breaks become spaces.
  function Unbroken(value: string): (s: string)
    ensures |s| == |value| && forall i :: 0 <= i < |value| ==> s[i] == if IsBreak(value[i]) then ' ' else value[i]
  {
    if value == "" then ""
    else [if IsBreak(value[0]) then ' ' else value[0]] + Unbroken(value[1..])
  }

  // Every quote doubled.
  function Doubled(value: string): string {
    if value == "" then ""
    else (if value[0] == QUOTE then [QUOTE, QUOTE] else [value[0]]) + Doubled(value[1..])
  }

  predicate NeedsQuotes(value: string) {
    ',' in value || QUOTE in value
  }

  function Printed(value: string): string {
    var unbroken := Unbroken(value);
    if NeedsQuotes(unbroken) then [QUOTE] + Doubled(unbroken) + [QUOTE] else unbroken
  }

  method Field(value: string) returns (printed: string)
    ensures printed == Printed(value)
  {
    var text := value;
    for i := 0 to |value|
      invariant |text| == |value|
      invariant forall j :: 0 <= j < |value| ==>
                  text[j] == if j < i && IsBreak(value[j]) then ' ' else value[j]
    {
      if IsBreak(text[i]) {
        text := text[i := ' '];
      }
    }
    assert text == Unbroken(value);
    if !NeedsQuotes(text) {
      return text;
    }
    var quoted := [QUOTE];
    assert text[..0] == "";
    for i := 0 to |text|
      invariant quoted == [QUOTE] + Doubled(text[..i])
    {
      DoubledOnto(text[..i], text[i]);
      assert text[..i + 1] == text[..i] + [text[i]];
      quoted := quoted + [text[i]];
      if text[i] == QUOTE {
        quoted := quoted + [QUOTE];
      }
    }
    assert text[..|text|] == text;
    printed := quoted + [QUOTE];
  }

  lemma {:induction false} DoubledOnto(value: string, c: char)
    ensures Doubled(value + [c]) == Doubled(value) + if c == QUOTE then [QUOTE, QUOTE] else [c]
  {
    if value == "" {
      assert value + [c] == [c] && [c][1..] == "";
    } else {
      DoubledOnto(value[1..], c);
      assert (value + [c])[1..] == value[1..] + [c];
    }
  }

  // The fields printed, with commas between.
  function Line(fields: seq<string>): string
    requires fields != []
  {
    if |fields| == 1 then Printed(fields[0])
    else Line(fields[..|fields| - 1]) + "," + Printed(fields[|fields| - 1])
  }

  method FormatFields(fields: seq<string>) returns (line: string)
    requires fields != []
    ensures line == Line(fields)
  {
    line := "";
    var first := true;
    for i := 0 to |fields|
      invariant first <==> i == 0
      invariant i == 0 ==> line == ""
      invariant i > 0 ==> line == Line(fields[..i])
    {
      if !first {
        line := line + ",";
      }
      first := false;
      var printed := Field(fields[i]);
      assert fields[..i + 1][..i] == fields[..i];
      line := line + printed;
    }
    assert fields[..|fields|] == fields;
  }

  // ---- Parsing ----

  // One more character of the last field.
  function Grown(fields: seq<string>, more: string): (grown: seq<string>)
    requires fields != []
    ensures |grown| == |fields| && grown != []
  {
    fields[..|fields| - 1] + [fields[|fields| - 1] + more]
  }

  // What the rest of a line adds to the fields so far.
  function Parsed(line: string, fields: seq<string>, quoted: bool): (parsed: seq<string>)
    requires fields != []
    ensures parsed != []
    decreases |line|
  {
    if line == "" then fields
    else
      var c, rest := line[0], line[1..];
      if quoted then
        if c == QUOTE && rest != "" && rest[0] == QUOTE then Parsed(rest[1..], Grown(fields, [QUOTE]), true)
        else if c == QUOTE then Parsed(rest, fields, false)
        else Parsed(rest, Grown(fields, [c]), true)
      else if c == QUOTE then Parsed(rest, fields, true)
      else if c == ',' then Parsed(rest, fields + [""], false)
      else if c != '\r' then Parsed(rest, Grown(fields, [c]), false)
      else Parsed(rest, fields, false)
  }

  method ParseCsvLine(line: string) returns (fields: seq<string>)
    ensures fields == Parsed(line, [""], false)
  {
    fields := [""];
    var quoted := false;
    var i := 0;
    assert line[0..] == line;
    while i < |line|
      invariant 0 <= i <= |line| && fields != []
      invariant Parsed(line[i..], fields, quoted) == Parsed(line, [""], false)
    {
      var c := line[i];
      assert line[i..][1..] == line[i + 1..];
      if quoted {
        if c == QUOTE && i + 1 < |line| && line[i + 1] == QUOTE {
          assert line[i + 1..][1..] == line[i + 2..];
          fields := Grown(fields, [QUOTE]);
          i := i + 1;
        } else if c == QUOTE {
          quoted := false;
        } else {
          fields := Grown(fields, [c]);
        }
      } else if c == QUOTE {
        quoted := true;
      } else if c == ',' {
        fields := fields + [""];
      } else if c != '\r' {
        fields := Grown(fields, [c]);
      }
      i := i + 1;
    }
  }

  // ---- The round trip ----

  lemma GrownTwice(fields: seq<string>, a: string, b: string)
    requires fields != []
    ensures Grown(Grown(fields, a), b) == Grown(fields, a + b)
  {
    var l := |fields| - 1;
    assert Grown(fields, a)[..l] == fields[..l];
    assert fields[l] + a + b == fields[l] + (a + b);
  }

  lemma GrownByNothing(fields: seq<string>)
    requires fields != []
    ensures Grown(fields, "") == fields
  {
    assert fields[|fields| - 1] + "" == fields[|fields| - 1];
  }

  // A field without quotes is read as it stands.
  lemma {:induction false} ReadsPlain(value: string, rest: string, fields: seq<string>)
    requires fields != [] && !NeedsQuotes(value) && '\r' !in value
    ensures Parsed(value + rest, fields, false) == Parsed(rest, Grown(fields, value), false)
    decreases |value|
  {
    if value == "" {
      assert value + rest == rest;
      GrownByNothing(fields);
    } else {
      var tail := value[1..];
      assert (value + rest)[1..] == tail + rest;
      assert value[0] in value && forall c :: c in tail ==> c in value;
      ReadsPlain(tail, rest, Grown(fields, [value[0]]));
      GrownTwice(fields, [value[0]], tail);
      assert [value[0]] + tail == value;
    }
  }

  lemma ReadsOneQuoted(c: char, rest: string, fields: seq<string>)
    requires fields != []
    ensures Parsed((if c == QUOTE then [QUOTE, QUOTE] else [c]) + rest, fields, true)
         == Parsed(rest, Grown(fields, [c]), true)
  {
    if c == QUOTE {
      assert ([QUOTE, QUOTE] + rest)[1..] == [QUOTE] + rest && ([QUOTE] + rest)[1..] == rest;
    } else {
      assert ([c] + rest)[1..] == rest;
    }
  }

  lemma ReadsQuote(rest: string, fields: seq<string>, quoted: bool)
    requires fields != [] && (rest != "" ==> rest[0] != QUOTE)
    ensures Parsed([QUOTE] + rest, fields, quoted) == Parsed(rest, fields, !quoted)
  {
    assert ([QUOTE] + rest)[1..] == rest;
  }

  lemma Opens(rest: string, fields: seq<string>)
    requires fields != []
    ensures Parsed([QUOTE] + rest, fields, false) == Parsed(rest, fields, true)
  {
    assert ([QUOTE] + rest)[1..] == rest;
  }

  // A quoted one is read with its quotes single, up to the quote that closes it.
  lemma {:induction false} ReadsDoubled(value: string, rest: string, fields: seq<string>)
    requires fields != [] && (rest != "" ==> rest[0] != QUOTE)
    ensures Parsed(Doubled(value) + ([QUOTE] + rest), fields, true) == Parsed(rest, Grown(fields, value), false)
    decreases |value|
  {
    hide Parsed, Grown;
    var after := [QUOTE] + rest;
    if value == "" {
      assert Doubled(value) + after == after;
      ReadsQuote(rest, fields, true);
      GrownByNothing(fields);
    } else {
      var c, tail := value[0], value[1..];
      assert Doubled(value) + after == (if c == QUOTE then [QUOTE, QUOTE] else [c]) + (Doubled(tail) + after);
      ReadsOneQuoted(c, Doubled(tail) + after, fields);
      ReadsDoubled(tail, rest, Grown(fields, [c]));
      GrownTwice(fields, [c], tail);
      assert [c] + tail == value;
    }
  }

  lemma ReadsField(value: string, rest: string, fields: seq<string>)
    requires fields != [] && (rest != "" ==> rest[0] == ',')
    ensures Parsed(Printed(value) + rest, fields, false) == Parsed(rest, Grown(fields, Unbroken(value)), false)
  {
    hide Parsed, Grown, Doubled;
    var unbroken := Unbroken(value);
    if NeedsQuotes(unbroken) {
      assert Printed(value) + rest == [QUOTE] + (Doubled(unbroken) + ([QUOTE] + rest));
      Opens(Doubled(unbroken) + ([QUOTE] + rest), fields);
      ReadsDoubled(unbroken, rest, fields);
    } else {
      ReadsPlain(unbroken, rest, fields);
    }
  }

  function Unbrokens(fields: seq<string>): (s: seq<string>)
    ensures |s| == |fields| && forall i :: 0 <= i < |fields| ==> s[i] == Unbroken(fields[i])
  {
    seq(|fields|, i requires 0 <= i < |fields| => Unbroken(fields[i]))
  }

  lemma {:induction false} ReadsLine(fields: seq<string>, rest: string)
    requires fields != [] && (rest != "" ==> rest[0] == ',')
    ensures Parsed(Line(fields) + rest, [""], false) == Parsed(rest, Unbrokens(fields), false)
    decreases |fields|
  {
    var l := |fields| - 1;
    hide Parsed, Printed, Unbroken;
    if l == 0 {
      ReadsNext(fields[0], rest, []);
      assert [] + [""] == [""] && [] + [Unbroken(fields[0])] == Unbrokens(fields);
    } else {
      var last := Printed(fields[l]) + rest;
      assert Line(fields) + rest == Line(fields[..l]) + ("," + last);
      ReadsLine(fields[..l], "," + last);
      AfterComma(last, Unbrokens(fields[..l]));
      ReadsNext(fields[l], rest, Unbrokens(fields[..l]));
      assert Unbrokens(fields[..l]) + [Unbroken(fields[l])] == Unbrokens(fields);
    }
  }

  lemma ReadsNext(field: string, rest: string, before: seq<string>)
    requires rest != "" ==> rest[0] == ','
    ensures Parsed(Printed(field) + rest, before + [""], false) == Parsed(rest, before + [Unbroken(field)], false)
  {
    hide Parsed, Printed, Unbroken;
    ReadsField(field, rest, before + [""]);
    assert "" + Unbroken(field) == Unbroken(field);
    assert Grown(before + [""], Unbroken(field)) == before + [Unbroken(field)];
  }

  lemma AfterComma(rest: string, fields: seq<string>)
    requires fields != []
    ensures Parsed("," + rest, fields, false) == Parsed(rest, fields + [""], false)
  {
    assert ("," + rest)[1..] == rest;
  }

  // Parsing undoes printing: the same fields, their line breaks as spaces.
  lemma ParsingUndoesPrinting(fields: seq<string>)
    requires fields != []
    ensures Parsed(Line(fields), [""], false) == Unbrokens(fields)
  {
    ReadsLine(fields, "");
    assert Line(fields) + "" == Line(fields);
  }

  // And a printed line is one line.
  lemma {:induction false} LineIsUnbroken(fields: seq<string>)
    requires fields != []
    ensures forall c :: c in Line(fields) ==> !IsBreak(c)
    decreases |fields|
  {
    var l := |fields| - 1;
    PrintedIsUnbroken(fields[l]);
    hide Printed;
    if l > 0 { LineIsUnbroken(fields[..l]); }
  }

  lemma PrintedIsUnbroken(value: string)
    ensures forall c :: c in Printed(value) ==> !IsBreak(c)
  {
    DoubledHolds(Unbroken(value));
  }

  lemma {:induction false} DoubledHolds(value: string)
    ensures forall c :: c in Doubled(value) ==> c in value
  {
    if value != "" {
      DoubledHolds(value[1..]);
      assert forall c :: c in value[1..] ==> c in value;
    }
  }
}
