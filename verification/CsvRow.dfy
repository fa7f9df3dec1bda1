/**
 `parse_csv_row` (common/arg.cpp): one row of comma-separated values, with the quoting rules of
 section 2 of RFC 4180 and a quote inside an unquoted field standing for itself.
 */
module CsvRow {

  /** What is still to be returned when `field` has been collected and `s` is left to read. */
  function Parse(s: string, field: string, inQuotes: bool): (fields: seq<string>)
    ensures fields != []
    decreases |s|
  {
    if s == "" then [field]
    else if s[0] == '"' then
      if !inQuotes then
        if field != "" then Parse(s[1..], field + "\"", false) else Parse(s[1..], field, true)
      else if |s| > 1 && s[1] == '"' then Parse(s[2..], field + "\"", true)
      else Parse(s[1..], field, false)
    else if s[0] == ',' && !inQuotes then [field] + Parse(s[1..], "", false)
    else Parse(s[1..], field + [s[0]], inQuotes)
  }

  method ParseCsvRow(input: string) returns (fields: seq<string>)
    ensures fields == Parse(input, "", false)
  {
    fields := [];
    var field, inQuotes := "", false;
    var i := 0;
    assert input[0..] == input;
    while i < |input|
      invariant i <= |input|
      invariant fields + Parse(input[i..], field, inQuotes) == Parse(input, "", false)
    {
      var ch := input[i];
      assert input[i..][1..] == input[i + 1..];
      if ch == '"' {
        if !inQuotes {
          if field != "" {
            field := field + "\"";
          } else {
            inQuotes := true;
          }
        } else {
          if i + 1 < |input| && input[i + 1] == '"' {
            assert input[i..][2..] == input[i + 2..];
            field := field + "\"";
            i := i + 1;
          } else {
            inQuotes := false;
          }
        }
      } else if ch == ',' {
        if inQuotes {
          field := field + ",";
        } else {
          fields := fields + [field];
          field := "";
        }
      } else {
        field := field + [ch];
      }
      i := i + 1;
    }
    fields := fields + [field];
  }

  // ----- the same reading without lookahead -----

  /** At the start of a field, in an unquoted part, inside quotes, or after a quote met inside quotes. */
  datatype Mode = Start | Body | Inside | Quote

  predicate Separates(m: Mode, c: char) { c == ',' && m != Inside }

  function Next(m: Mode, c: char): Mode {
    if Separates(m, c) then Start
    else match m
      case Start => if c == '"' then Inside else Body
      case Body => Body
      case Inside => if c == '"' then Quote else Inside
      case Quote => if c == '"' then Inside else Body
  }

  /** What the character adds to the field. */
  function Adds(m: Mode, c: char): string {
    if Separates(m, c) || (c == '"' && (m == Start || m == Inside)) then "" else [c]
  }

  function Read(s: string, m: Mode, field: string): (fields: seq<string>)
    ensures fields != []
    decreases |s|, 1
  {
    if s == "" then [field] else ReadOn(s, m, field)
  }

  /** One character, then the rest. */
  function ReadOn(s: string, m: Mode, field: string): (fields: seq<string>)
    requires s != ""
    ensures fields != []
    decreases |s|, 0
  {
    if Separates(m, s[0]) then [field] + Read(s[1..], Start, "")
    else Read(s[1..], Next(m, s[0]), field + Adds(m, s[0]))
  }

  /** How the two flags of the loop encode the mode. */
  predicate Encodes(m: Mode, s: string, field: string, inQuotes: bool) {
    match m
    case Start => !inQuotes && field == ""
    case Body => !inQuotes && field != ""
    case Inside => inQuotes
    case Quote => !inQuotes && (s == "" || s[0] != '"')
  }

  lemma {:induction false} ParseIsRead(s: string, m: Mode, field: string, inQuotes: bool)
    requires Encodes(m, s, field, inQuotes)
    ensures Parse(s, field, inQuotes) == Read(s, m, field)
    decreases |s|
  {
    if s != "" {
      if m == Inside && s[0] == '"' && |s| > 1 && s[1] == '"' {
        TwoQuotes(s, field);
        ParseIsRead(s[2..], Inside, field + "\"", true);
      } else if Separates(m, s[0]) {
        ParseIsRead(s[1..], Start, "", false);
      } else {
        assert field + "" == field;
        ParseIsRead(s[1..], Next(m, s[0]), field + Adds(m, s[0]), Next(m, s[0]) == Inside);
      }
    }
  }

  lemma TwoQuotes(s: string, field: string)
    requires |s| > 1 && s[0] == '"' && s[1] == '"'
    ensures Read(s, Inside, field) == Read(s[2..], Inside, field + "\"")
  {
    assert s[1..][1..] == s[2..];
    assert field + "" == field;
    assert Read(s, Inside, field) == Read(s[1..], Quote, field);
  }

  /** The mode after reading a text. */
  function After(s: string, m: Mode): Mode {
    if s == "" then m else After(s[1..], Next(m, s[0]))
  }

  /** The commas that stand outside quotes. */
  function UnquotedCommas(s: string, m: Mode): nat {
    if s == "" then 0 else (if Separates(m, s[0]) then 1 else 0) + UnquotedCommas(s[1..], Next(m, s[0]))
  }

  lemma {:induction false} ReadCount(s: string, m: Mode, field: string)
    ensures |Read(s, m, field)| == 1 + UnquotedCommas(s, m)
  {
    if s != "" {
      if Separates(m, s[0]) { ReadCount(s[1..], Start, ""); }
      else { ReadCount(s[1..], Next(m, s[0]), field + Adds(m, s[0])); }
    }
  }

  /** One field more than there are unquoted commas. */
  lemma FieldCount(input: string)
    ensures |Parse(input, "", false)| == 1 + UnquotedCommas(input, Start)
  {
    ParseIsRead(input, Start, "", false);
    ReadCount(input, Start, "");
  }

  // ----- printing a row -----

  function Doubled(f: string): string {
    if f == "" then "" else (if f[0] == '"' then "\"\"" else [f[0]]) + Doubled(f[1..])
  }

  /** A field that may stand unquoted. */
  predicate Bare(f: string) { ',' !in f && (f == "" || f[0] != '"') }

  datatype Cell = Cell(field: string, quoted: bool)

  predicate Printable(c: Cell) { c.quoted || Bare(c.field) }

  function PrintCell(c: Cell): string { if c.quoted then "\"" + Doubled(c.field) + "\"" else c.field }

  function PrintRow(cells: seq<Cell>): string
    requires cells != []
  {
    if |cells| == 1 then PrintCell(cells[0]) else PrintCell(cells[0]) + "," + PrintRow(cells[1..])
  }

  function Fields(cells: seq<Cell>): seq<string> { seq(|cells|, i requires 0 <= i < |cells| => cells[i].field) }

  /** One character of a quoted field, doubled if it is a quote. */
  lemma ReadQuotedChar(c: char, tail: string, field: string)
    ensures Read((if c == '"' then "\"\"" else [c]) + tail, Inside, field) == Read(tail, Inside, field + [c])
  {
    var s := (if c == '"' then "\"\"" else [c]) + tail;
    if c == '"' {
      assert s[2..] == tail;
      TwoQuotes(s, field);
    } else {
      assert s[1..] == tail;
    }
  }

  lemma {:induction false} ReadDoubled(f: string, rest: string, field: string)
    ensures Read(Doubled(f) + "\"" + rest, Inside, field) == Read(rest, Quote, field + f)
  {
    if f == "" {
      assert Doubled(f) + "\"" + rest == "\"" + rest;
      assert ("\"" + rest)[1..] == rest;
      assert field + "" == field;
    } else {
      var tail := Doubled(f[1..]) + "\"" + rest;
      assert Doubled(f) + "\"" + rest == (if f[0] == '"' then "\"\"" else [f[0]]) + tail;
      assert field + f == field + [f[0]] + f[1..];
      ReadQuotedChar(f[0], tail, field);
      ReadDoubled(f[1..], rest, field + [f[0]]);
    }
  }

  lemma {:induction false} ReadBody(f: string, rest: string, field: string)
    requires ',' !in f
    ensures Read(f + rest, Body, field) == Read(rest, Body, field + f)
  {
    if f == "" {
      assert f + rest == rest && field + f == field;
    } else {
      assert (f + rest)[1..] == f[1..] + rest;
      assert field + f == field + [f[0]] + f[1..];
      ReadBody(f[1..], rest, field + [f[0]]);
    }
  }

  lemma OpenQuote(s: string)
    requires s != "" && s[0] == '"'
    ensures Read(s, Start, "") == Read(s[1..], Inside, "")
  {
    assert "" + "" == "";
  }

  lemma ReadQuoted(field: string, rest: string)
    ensures Read("\"" + Doubled(field) + "\"" + rest, Start, "") == Read(rest, Quote, field)
  {
    var s := "\"" + Doubled(field) + "\"" + rest;
    assert s[1..] == Doubled(field) + "\"" + rest && "" + field == field;
    OpenQuote(s);
    ReadDoubled(field, rest, "");
  }

  lemma ReadBare(field: string, rest: string)
    requires field != "" && Bare(field)
    ensures Read(field + rest, Start, "") == Read(rest, Body, field)
  {
    assert field == [field[0]] + field[1..] && (field + rest)[1..] == field[1..] + rest;
    assert "" + [field[0]] == [field[0]];
    ReadBody(field[1..], rest, [field[0]]);
  }

  /** A printed cell is read back as its field, in a mode where a comma separates. */
  lemma ReadCell(c: Cell, rest: string) returns (m: Mode)
    requires Printable(c)
    ensures m != Inside && Read(PrintCell(c) + rest, Start, "") == Read(rest, m, c.field)
  {
    if c.quoted {
      ReadQuoted(c.field, rest);
      m := Quote;
    } else if c.field == "" {
      assert PrintCell(c) + rest == rest;
      m := Start;
    } else {
      ReadBare(c.field, rest);
      m := Body;
    }
  }

  lemma ReadSeparator(rest: string, m: Mode, field: string)
    requires m != Inside
    ensures Read("," + rest, m, field) == [field] + Read(rest, Start, "")
  {
    assert ("," + rest)[1..] == rest;
  }

  lemma {:induction false} ReadRow(cells: seq<Cell>)
    requires cells != [] && forall i :: 0 <= i < |cells| ==> Printable(cells[i])
    ensures Read(PrintRow(cells), Start, "") == Fields(cells)
    decreases |cells|
  {
    if |cells| == 1 {
      var m := ReadCell(cells[0], "");
      assert PrintCell(cells[0]) + "" == PrintRow(cells);
    } else {
      ReadRow(cells[1..]);
      ReadFirst(cells, PrintRow(cells[1..]));
    }
  }

  lemma ReadFirst(cells: seq<Cell>, later: string)
    requires |cells| > 1 && Printable(cells[0]) && later == PrintRow(cells[1..])
    requires Read(later, Start, "") == Fields(cells[1..])
    ensures Read(PrintRow(cells), Start, "") == Fields(cells)
  {
    var m := ReadCell(cells[0], "," + later);
    assert PrintCell(cells[0]) + ("," + later) == PrintRow(cells);
    ReadSeparator(later, m, cells[0].field);
    assert Fields(cells) == [cells[0].field] + Fields(cells[1..]);
  }

  /** Any non-empty list of fields survives printing and parsing, quoted or, where bare, not. */
  lemma RoundTrip(cells: seq<Cell>)
    requires cells != [] && forall i :: 0 <= i < |cells| ==> Printable(cells[i])
    ensures Parse(PrintRow(cells), "", false) == Fields(cells)
  {
    ReadRow(cells);
    ParseIsRead(PrintRow(cells), Start, "", false);
  }

  // ----- which fields may stand unquoted -----

  function Size(fields: seq<string>): nat {
    if fields == [] then 0 else |fields[0]| + Size(fields[1..])
  }

  lemma {:induction false} ReadShrinks(s: string, m: Mode, field: string)
    ensures Size(Read(s, m, field)) <= |field| + |s|
  {
    if s != "" {
      if Separates(m, s[0]) {
        ReadShrinks(s[1..], Start, "");
        var rest := Read(s[1..], Start, "");
        assert ([field] + rest)[1..] == rest;
      } else {
        ReadShrinks(s[1..], Next(m, s[0]), field + Adds(m, s[0]));
      }
    } else {
      assert [field][1..] == [];
    }
  }

  lemma {:induction false} CommaSplits(s: string, m: Mode)
    requires ',' in s && (m == Body || (m == Start && s[0] != '"'))
    ensures UnquotedCommas(s, m) > 0
  {
    if !Separates(m, s[0]) { CommaSplits(s[1..], Body); }
  }

  /** A field printed without quotes reads back as itself exactly when it is bare. */
  lemma BareExactly(f: string)
    ensures Parse(f, "", false) == [f] <==> Bare(f)
  {
    ParseIsRead(f, Start, "", false);
    if Bare(f) {
      var c := Cell(f, false);
      ReadRow([c]);
      assert PrintRow([c]) == f;
    } else if f[0] == '"' {
      OpenQuote(f);
      ReadShrinks(f[1..], Inside, "");
      assert [f][1..] == [];
      assert Size([f]) == |f|;
    } else {
      CommaSplits(f, Start);
      ReadCount(f, Start, "");
    }
  }

  /** Two rows joined by a comma parse as their concatenation, unless the first leaves a quote open. */
  lemma {:induction false} JoinRows(a: string, b: string, m: Mode, field: string)
    requires After(a, m) != Inside
    ensures Read(a + "," + b, m, field) == Read(a, m, field) + Read(b, Start, "")
    decreases |a|
  {
    var s := a + "," + b;
    if a == "" {
      assert s[1..] == b;
    } else {
      assert s[1..] == a[1..] + "," + b;
      if Separates(m, a[0]) {
        JoinRows(a[1..], b, Start, "");
      } else {
        JoinRows(a[1..], b, Next(m, a[0]), field + Adds(m, a[0]));
      }
    }
  }

  lemma RowsConcatenate(a: string, b: string)
    requires After(a, Start) != Inside
    ensures Parse(a + "," + b, "", false) == Parse(a, "", false) + Parse(b, "", false)
  {
    JoinRows(a, b, Start, "");
    ParseIsRead(a, Start, "", false);
    ParseIsRead(b, Start, "", false);
    ParseIsRead(a + "," + b, Start, "", false);
  }
}
