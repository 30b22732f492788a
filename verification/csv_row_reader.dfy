/** src/platform/imports/csv-row-reader.ts */
module CsvRowReader {

  /** The reader takes a line apart into UTF-16 code units; a character outside this range is two of them. */
  predicate OneUnit(c: char) {
    c < '\U{10000}'
  }

  /**
   * The cells that remaining text `s` yields when `current` has been collected of the present cell and
   * `inQuotes` tells whether the reader is inside quotes.
   */
  function Cells(s: string, delimiter: string, current: string, inQuotes: bool): (cells: seq<string>)
    ensures |cells| > 0
    decreases |s|
  {
    if s == "" then [current]
    else if inQuotes then
      if s[0] == '"' then
        if |s| > 1 && s[1] == '"' then Cells(s[2..], delimiter, current + "\"", true)
        else Cells(s[1..], delimiter, current, false)
      else Cells(s[1..], delimiter, current + [s[0]], true)
    else if s[0] == '"' then Cells(s[1..], delimiter, current, true)
    else if [s[0]] == delimiter && OneUnit(s[0]) then [current] + Cells(s[1..], delimiter, "", false)
    else Cells(s[1..], delimiter, current + [s[0]], false)
  }

  method ParseCsvLine(line: string, delimiter: string) returns (cells: seq<string>)
    ensures cells == Cells(line, delimiter, "", false)
  {
    cells := [];
    var current, inQuotes, i := "", false, 0;
    while i < |line|
      invariant 0 <= i <= |line|
      invariant cells + Cells(line[i..], delimiter, current, inQuotes) == Cells(line, delimiter, "", false)
    {
      var c := line[i];
      ghost var rest := line[i..];
      assert rest[1..] == line[i + 1..];
      if inQuotes {
        if c == '"' {
          if i + 1 < |line| && line[i + 1] == '"' {
            assert rest[2..] == line[i + 2..];
            current := current + "\"";
            i := i + 1;
          } else {
            inQuotes := false;
          }
        } else {
          current := current + [c];
        }
      } else if c == '"' {
        inQuotes := true;
      } else if [c] == delimiter && OneUnit(c) {
        cells := cells + [current];
        current := "";
      } else {
        current := current + [c];
      }
      i := i + 1;
    }
    cells := cells + [current];
  }

  // ----- Writing a line, as rules 5 to 7 of section 2 of RFC 4180 allow ------------------------

  /** Every quote doubled. */
  function Escape(cell: string): string {
    if cell == "" then "" else (if cell[0] == '"' then "\"\"" else [cell[0]]) + Escape(cell[1..])
  }

  predicate Plain(cell: string, delimiter: char) {
    '"' !in cell && delimiter !in cell
  }

  function WriteCell(cell: string, quoted: bool): string {
    if quoted then "\"" + Escape(cell) + "\"" else cell
  }

  function WriteLine(cells: seq<string>, quoted: seq<bool>, delimiter: char): string
    requires |cells| == |quoted| > 0
  {
    if |cells| == 1 then WriteCell(cells[0], quoted[0])
    else WriteCell(cells[0], quoted[0]) + [delimiter] + WriteLine(cells[1..], quoted[1..], delimiter)
  }

  lemma {:induction false} ReadPlain(cell: string, rest: string, delimiter: char, current: string)
    requires Plain(cell, delimiter)
    ensures Cells(cell + rest, [delimiter], current, false) == Cells(rest, [delimiter], current + cell, false)
  {
    if cell == "" {
      assert cell + rest == rest && current + cell == current;
    } else {
      ReadPlain(cell[1..], rest, delimiter, current + [cell[0]]);
      assert (cell + rest)[1..] == cell[1..] + rest;
      assert current + [cell[0]] + cell[1..] == current + cell;
    }
  }

  lemma {:induction false} ReadQuoted(cell: string, rest: string, delimiter: string, current: string)
    requires rest == "" || rest[0] != '"'
    ensures Cells(Escape(cell) + "\"" + rest, delimiter, current, true) ==
            Cells(rest, delimiter, current + cell, false)
  {
    var s := Escape(cell) + "\"" + rest;
    if cell == "" {
      assert s[1..] == rest && current + cell == current;
    } else {
      var tail := Escape(cell[1..]) + "\"" + rest;
      ReadQuoted(cell[1..], rest, delimiter, current + [cell[0]]);
      assert cell[0] == '"' ==> s[2..] == tail;
      assert cell[0] != '"' ==> s[1..] == tail;
      assert current + [cell[0]] + cell[1..] == current + cell;
    }
  }

  lemma QuoteOpens(rest: string, delimiter: string)
    ensures Cells("\"" + rest, delimiter, "", false) == Cells(rest, delimiter, "", true)
  {
    assert ("\"" + rest)[1..] == rest;
  }

  lemma ReadCell(cell: string, quoted: bool, rest: string, delimiter: char)
    requires quoted || Plain(cell, delimiter)
    requires rest == "" || rest[0] != '"'
    ensures Cells(WriteCell(cell, quoted) + rest, [delimiter], "", false) == Cells(rest, [delimiter], cell, false)
  {
    hide Cells, Escape;
    assert "" + cell == cell;
    if quoted {
      QuoteOpens(Escape(cell) + "\"" + rest, [delimiter]);
      ReadQuoted(cell, rest, [delimiter], "");
      assert WriteCell(cell, true) + rest == "\"" + (Escape(cell) + "\"" + rest);
    } else {
      ReadPlain(cell, rest, delimiter, "");
    }
  }

  /**
   * Reading undoes writing: any cells, each quoted or, if it holds neither quote nor delimiter, left
   * plain, come back from the written line, for every delimiter of one code unit but the quote.
   */
  lemma {:induction false} ReadWritten(cells: seq<string>, quoted: seq<bool>, delimiter: char)
    requires |cells| == |quoted| > 0 && delimiter != '"' && delimiter as int < 0x1_0000
    requires forall i :: 0 <= i < |cells| ==> quoted[i] || Plain(cells[i], delimiter)
    ensures Cells(WriteLine(cells, quoted, delimiter), [delimiter], "", false) == cells
  {
    var first := WriteCell(cells[0], quoted[0]);
    if |cells| == 1 {
      ReadCell(cells[0], quoted[0], "", delimiter);
      assert first + "" == first;
    } else {
      var rest := [delimiter] + WriteLine(cells[1..], quoted[1..], delimiter);
      assert WriteLine(cells, quoted, delimiter) == first + rest;
      ReadCell(cells[0], quoted[0], rest, delimiter);
      ReadWritten(cells[1..], quoted[1..], delimiter);
      assert rest[1..] == WriteLine(cells[1..], quoted[1..], delimiter);
    }
  }

  /** With any other delimiter no line is ever split. */
  lemma {:induction false} UnusableDelimiter(s: string, delimiter: string, current: string, inQuotes: bool)
    requires |delimiter| != 1 || delimiter == "\"" || delimiter[0] as int >= 0x1_0000
    ensures |Cells(s, delimiter, current, inQuotes)| == 1
    decreases |s|
  {
    if s != "" {
      if inQuotes && s[0] == '"' && |s| > 1 && s[1] == '"' {
        UnusableDelimiter(s[2..], delimiter, current + "\"", true);
      } else if inQuotes {
        UnusableDelimiter(s[1..], delimiter, if s[0] == '"' then current else current + [s[0]], s[0] != '"');
      } else {
        UnusableDelimiter(s[1..], delimiter, if s[0] == '"' then current else current + [s[0]], s[0] == '"');
      }
    }
  }
}
