/**
 * The hand-written SpreadsheetML of both tools: column letters
 * (`excel_col`), cell references, escaped inline-string cells, the row
 * markup and the dimension reference.
 */
module Worksheet {
  import opened Wrappers
  import opened Text

  predicate IsUpper(c: char) { 'A' <= c <= 'Z' }

  predicate AllUpper(s: string) { forall i :: 0 <= i < |s| ==> IsUpper(s[i]) }

  /** The letter for a remainder 0..25. */
  function Letter(rem: int): (c: char)
    requires 0 <= rem < 26
    ensures IsUpper(c)
  {
    (('A' as int) + rem) as char
  }

  /** Bijective base 26: 1 -> "A", 26 -> "Z", 27 -> "AA"; 0 and below give "". */
  function ColLetters(col: int): (s: string)
    ensures AllUpper(s)
    ensures |s| >= 1 <==> col >= 1
    decreases col
  {
    if col <= 0 then "" else ColLetters((col - 1) / 26) + [Letter((col - 1) % 26)]
  }

  /** `excel_col`: peels off one letter per iteration, least significant first. */
  method ExcelCol(col: int) returns (out: string)
    ensures out == ColLetters(col)
  {
    out := "";
    var c := col;
    while c > 0
      invariant ColLetters(col) == ColLetters(c) + out
      decreases c
    {
      var rem := (c - 1) % 26;
      c := (c - 1) / 26;
      out := [Letter(rem)] + out;
    }
  }

  /** The column number that a run of letters names. */
  function ColNumber(s: string): (n: int)
    requires AllUpper(s)
    ensures n >= 0 && (n == 0 <==> s == "")
  {
    if s == "" then 0 else ColNumber(s[..|s| - 1]) * 26 + (s[|s| - 1] as int - 'A' as int) + 1
  }

  lemma {:induction false} ColNumberOfLetters(col: int)
    requires col >= 0
    ensures ColNumber(ColLetters(col)) == col
    decreases col
  {
    if col > 0 {
      var q, r := (col - 1) / 26, (col - 1) % 26;
      ColNumberOfLetters(q);
      ColNumberSnoc(ColLetters(q), Letter(r));
      assert q * 26 + r == col - 1;
    }
  }

  lemma DivMod26(q: int, r: int)
    requires 0 <= r < 26
    ensures (q * 26 + r) / 26 == q && (q * 26 + r) % 26 == r
  {
  }

  lemma ColLettersStep(q: int, r: int)
    requires q >= 0 && 0 <= r < 26
    ensures ColLetters(q * 26 + r + 1) == ColLetters(q) + [Letter(r)]
  {
    DivMod26(q, r);
  }

  lemma ColNumberSnoc(init: string, last: char)
    requires AllUpper(init) && IsUpper(last)
    ensures AllUpper(init + [last])
    ensures ColNumber(init + [last]) == ColNumber(init) * 26 + (last as int - 'A' as int) + 1
  {
    assert (init + [last])[..|init|] == init;
  }

  lemma {:induction false} ColLettersOfNumber(s: string)
    requires AllUpper(s)
    ensures ColLetters(ColNumber(s)) == s
  {
    if s != "" {
      var init, last := s[..|s| - 1], s[|s| - 1];
      assert s == init + [last];
      ColLettersOfNumber(init);
      ColNumberSnoc(init, last);
      ColLettersStep(ColNumber(init), last as int - 'A' as int);
    }
  }

  /** Different columns get different letters. */
  lemma ColLettersInjective(a: int, b: int)
    requires a >= 0 && b >= 0 && ColLetters(a) == ColLetters(b)
    ensures a == b
  {
    ColNumberOfLetters(a);
    ColNumberOfLetters(b);
  }

  /** The columns the two sheets end at, and the 26/27 boundary. */
  lemma ColLettersExamples()
    ensures ColLetters(1) == "A" && ColLetters(12) == "L" && ColLetters(14) == "N"
    ensures ColLetters(26) == "Z" && ColLetters(27) == "AA"
  {
    assert ColLetters(1) == "A";
    assert ColLetters(27) == ColLetters(1) + "A";
  }

  /** `cell_ref`: column letters followed by the 1-based row number. */
  function CellRef(row: int, col: int): string
  {
    ColLetters(col) + IntToString(row)
  }

  /** What `saxutils.escape` does to one character: only &, < and > are replaced. */
  function EscapeChar(c: char): (s: string)
    ensures |s| >= 1
  {
    if c == '&' then "&amp;"
    else if c == '<' then "&lt;"
    else if c == '>' then "&gt;"
    else [c]
  }

  /** `saxutils.escape` with its default (empty) entity table. */
  function Escape(s: string): (r: string)
    ensures '<' !in r && '>' !in r
    ensures |r| >= |s|
  {
    if s == "" then "" else EscapeChar(s[0]) + Escape(s[1..])
  }

  /** The XML reader's side: the three entities back to their characters. */
  function Unescape(t: string): string
    decreases |t|
  {
    if t == "" then ""
    else if |t| >= 5 && t[..5] == "&amp;" then "&" + Unescape(t[5..])
    else if |t| >= 4 && t[..4] == "&lt;" then "<" + Unescape(t[4..])
    else if |t| >= 4 && t[..4] == "&gt;" then ">" + Unescape(t[4..])
    else [t[0]] + Unescape(t[1..])
  }

  lemma UnescapeAmp(rest: string)
    ensures Unescape("&amp;" + rest) == "&" + Unescape(rest)
  {
    var t := "&amp;" + rest;
    assert t[..5] == "&amp;" && t[5..] == rest;
  }

  lemma UnescapeLt(rest: string)
    ensures Unescape("&lt;" + rest) == "<" + Unescape(rest)
  {
    var t := "&lt;" + rest;
    if |t| >= 5 {
      assert t[..5][1] == 'l';
    }
    assert t[..4] == "&lt;" && t[4..] == rest;
  }

  lemma UnescapeGt(rest: string)
    ensures Unescape("&gt;" + rest) == ">" + Unescape(rest)
  {
    var t := "&gt;" + rest;
    if |t| >= 5 {
      assert t[..5][1] == 'g';
    }
    assert t[..4][1] == 'g';
    assert t[..4] == "&gt;" && t[4..] == rest;
  }

  lemma UnescapePlain(c: char, rest: string)
    requires c != '&'
    ensures Unescape([c] + rest) == [c] + Unescape(rest)
  {
    var t := [c] + rest;
    if |t| >= 5 {
      assert t[..5][0] == c;
    }
    if |t| >= 4 {
      assert t[..4][0] == c;
    }
    assert t[0] == c && t[1..] == rest;
  }

  /** Reading back one escaped character, then the rest. */
  lemma UnescapeCons(c: char, rest: string)
    ensures Unescape(EscapeChar(c) + rest) == [c] + Unescape(rest)
  {
    if c == '&' {
      UnescapeAmp(rest);
    } else if c == '<' {
      UnescapeLt(rest);
    } else if c == '>' {
      UnescapeGt(rest);
    } else {
      UnescapePlain(c, rest);
    }
  }

  /** Escaping loses nothing: the reader gets the original text back. */
  lemma {:induction false} EscapeRoundTrip(s: string)
    ensures Unescape(Escape(s)) == s
  {
    if s != "" {
      EscapeRoundTrip(s[1..]);
      UnescapeCons(s[0], Escape(s[1..]));
      assert s == [s[0]] + s[1..];
    }
  }

  /** Text without &, < or > is written unchanged. */
  lemma {:induction false} EscapePlain(s: string)
    requires '&' !in s && '<' !in s && '>' !in s
    ensures Escape(s) == s
  {
    if s != "" {
      EscapePlain(s[1..]);
      assert s == [s[0]] + s[1..];
    }
  }

  function CellOpen(row: int, col: int): string
  {
    "<c r=\"" + CellRef(row, col) + "\" t=\"inlineStr\"><is><t>"
  }

  const CellClose: string := "</t></is></c>"

  /** `inline_cell`: one inline-string cell holding the escaped value. */
  function InlineCell(row: int, col: int, value: string): string
  {
    CellOpen(row, col) + Escape(value) + CellClose
  }

  /** Reads the value back out of a cell written for (row, col). */
  function CellValue(row: int, col: int, cell: string): Option<string>
  {
    var open := CellOpen(row, col);
    if |cell| >= |open| + |CellClose| && cell[..|open|] == open && cell[|cell| - |CellClose|..] == CellClose
    then Some(Unescape(cell[|open|..|cell| - |CellClose|]))
    else None
  }

  /** Every value, whatever characters it holds, survives the trip through its cell. */
  lemma InlineCellRoundTrip(row: int, col: int, value: string)
    ensures CellValue(row, col, InlineCell(row, col, value)) == Some(value)
  {
    var open, e := CellOpen(row, col), Escape(value);
    var cell := InlineCell(row, col, value);
    assert cell[..|open|] == open;
    assert cell[|cell| - |CellClose|..] == CellClose;
    assert cell[|open|..|cell| - |CellClose|] == e;
    EscapeRoundTrip(value);
  }

  /** The cells of one row, the k-th value in column k + 1. */
  function CellList(row: int, values: seq<string>): seq<string>
  {
    seq(|values|, k requires 0 <= k < |values| => InlineCell(row, k + 1, values[k]))
  }

  /** Every value of a row can be read back from the cell at its column. */
  lemma CellListValues(row: int, values: seq<string>)
    ensures |CellList(row, values)| == |values|
    ensures forall k :: 0 <= k < |values| ==> CellValue(row, k + 1, CellList(row, values)[k]) == Some(values[k])
  {
    forall k | 0 <= k < |values|
      ensures CellValue(row, k + 1, CellList(row, values)[k]) == Some(values[k])
    {
      InlineCellRoundTrip(row, k + 1, values[k]);
    }
  }

  /** `<row r="n">` with the row's cells. */
  function RowXml(row: int, values: seq<string>): string
  {
    "<row r=\"" + IntToString(row) + "\">" + Join(CellList(row, values)) + "</row>"
  }

  /** The `enumerate(rows, start=1)` loop: one row element per row, numbered from 1. */
  method SheetRows(rows: seq<seq<string>>) returns (sheetRows: seq<string>)
    ensures |sheetRows| == |rows|
    ensures forall i :: 0 <= i < |rows| ==> sheetRows[i] == RowXml(i + 1, rows[i])
  {
    sheetRows := [];
    for i := 0 to |rows|
      invariant |sheetRows| == i
      invariant forall k :: 0 <= k < i ==> sheetRows[k] == RowXml(k + 1, rows[k])
    {
      sheetRows := sheetRows + [RowXml(i + 1, rows[i])];
    }
  }

  /** `A1:<last column><row count>`. */
  function Dimension(columns: int, rowCount: int): string
  {
    "A1:" + ColLetters(columns) + IntToString(rowCount)
  }

  /** The dimensions of the two sheets: 14 columns end at N, 12 at L. */
  lemma DimensionExamples(rowCount: int)
    ensures Dimension(14, rowCount) == "A1:N" + IntToString(rowCount)
    ensures Dimension(12, rowCount) == "A1:L" + IntToString(rowCount)
  {
    ColLettersExamples();
  }

  /** The row elements of a sheet, numbered from 1. */
  function RowsXml(rows: seq<seq<string>>): seq<string>
  {
    seq(|rows|, i requires 0 <= i < |rows| => RowXml(i + 1, rows[i]))
  }

  function SheetData(rows: seq<seq<string>>): string
  {
    "<sheetData>" + Join(RowsXml(rows)) + "</sheetData>"
  }

  /**
   * The part of `build_xlsx` / `write_xlsx` that depends on the rows: the
   * dimension reference and the sheet data.
   */
  method RenderSheet(rows: seq<seq<string>>, columns: int) returns (dimension: string, sheetData: string)
    ensures dimension == Dimension(columns, |rows|)
    ensures sheetData == SheetData(rows)
  {
    var sheetRows := SheetRows(rows);
    assert sheetRows == RowsXml(rows);
    var last := ExcelCol(columns);
    dimension := "A1:" + last + IntToString(|rows|);
    sheetData := "<sheetData>" + Join(sheetRows) + "</sheetData>";
  }

  /** Row r of the sheet data is the r-th row element, and its k-th cell holds the row's k-th value. */
  lemma SheetDataRow(rows: seq<seq<string>>, r: int, k: int)
    requires 0 <= r < |rows| && 0 <= k < |rows[r]|
    ensures RowsXml(rows)[r] == "<row r=\"" + IntToString(r + 1) + "\">" + Join(CellList(r + 1, rows[r])) + "</row>"
    ensures CellValue(r + 1, k + 1, CellList(r + 1, rows[r])[k]) == Some(rows[r][k])
  {
    CellListValues(r + 1, rows[r]);
  }
}
