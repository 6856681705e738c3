/** The rows of the web tool's workbook (`build_xlsx`). */
module WebSheet {
  import opened Wrappers
  import opened Text
  import opened Convention
  import opened Resolver
  import opened Worksheet

  const Headers: seq<string> := [
    "Address", "FinalName", "GeneratedName", "OriginalName", "Main", "Middle", "Sub",
    "ModuleInMain", "ModuleGlobal", "ObjectType", "ObjectNo", "DeviceNo", "FunctionNo", "FunctionName"
  ]

  /** `names_by_address.get(e.address, e.generated_name)`. */
  function FinalName(e: Entry, names: map<string, string>): string
  {
    if e.address in names then names[e.address] else e.generatedName
  }

  /** One entry's row, in header order. */
  function Row(e: Entry, names: map<string, string>): seq<string>
  {
    [e.address, FinalName(e, names), e.generatedName, e.originalName,
     IntToString(e.main), IntToString(e.middle), IntToString(e.sub),
     IntToString(e.moduleInMain), IntToString(e.moduleGlobal),
     [Label(e.objectType)], IntToString(e.objectNo), IntToString(DeviceNo),
     IntToString(e.funcNo), e.funcName]
  }

  /** The header row followed by one row per entry. */
  function Rows(entries: seq<Entry>, names: map<string, string>): seq<seq<string>>
  {
    [Headers] + seq(|entries|, i requires 0 <= i < |entries| => Row(entries[i], names))
  }

  /** The row-building loop of `build_xlsx`. */
  method BuildRows(entries: seq<Entry>, names: map<string, string>) returns (rows: seq<seq<string>>)
    ensures |rows| == |entries| + 1 && rows[0] == Headers
    ensures forall i :: 0 <= i < |entries| ==> rows[i + 1] == Row(entries[i], names)
  {
    rows := [Headers];
    for i := 0 to |entries|
      invariant |rows| == i + 1 && rows[0] == Headers
      invariant forall k :: 0 <= k < i ==> rows[k + 1] == Row(entries[k], names)
    {
      var e := entries[i];
      var finalName := if e.address in names then names[e.address] else e.generatedName;
      rows := rows + [[e.address, finalName, e.generatedName, e.originalName,
                       IntToString(e.main), IntToString(e.middle), IntToString(e.sub),
                       IntToString(e.moduleInMain), IntToString(e.moduleGlobal),
                       [Label(e.objectType)], IntToString(e.objectNo), IntToString(DeviceNo),
                       IntToString(e.funcNo), e.funcName]];
    }
  }

  /**
   * Each row has one cell per header, and the FinalName column holds the
   * mapped name when the address has one and the generated name otherwise.
   */
  lemma RowFinalName(e: Entry, names: map<string, string>)
    ensures |Row(e, names)| == |Headers| == 14
    ensures e.address in names ==> Row(e, names)[1] == names[e.address]
    ensures e.address !in names ==> Row(e, names)[1] == e.generatedName
    ensures Row(e, names)[0] == e.address && Row(e, names)[2] == e.generatedName && Row(e, names)[3] == e.originalName
    ensures Row(e, names)[9] == [Label(e.objectType)] && Row(e, names)[13] == e.funcName
  {
  }

  /** Every numeric column reads back as the entry's number, and DeviceNo as 9. */
  lemma RowNumbers(e: Entry, names: map<string, string>)
    ensures |Row(e, names)| == 14
    ensures ParseInt(Row(e, names)[4]) == Some(e.main)
    ensures ParseInt(Row(e, names)[5]) == Some(e.middle)
    ensures ParseInt(Row(e, names)[6]) == Some(e.sub)
    ensures ParseInt(Row(e, names)[7]) == Some(e.moduleInMain)
    ensures ParseInt(Row(e, names)[8]) == Some(e.moduleGlobal)
    ensures ParseInt(Row(e, names)[10]) == Some(e.objectNo)
    ensures ParseInt(Row(e, names)[11]) == Some(9)
    ensures ParseInt(Row(e, names)[12]) == Some(e.funcNo)
  {
    var row := Row(e, names);
    ReadsBack(row, 4, e.main);
    ReadsBack(row, 5, e.middle);
    ReadsBack(row, 6, e.sub);
    ReadsBack(row, 7, e.moduleInMain);
    ReadsBack(row, 8, e.moduleGlobal);
    ReadsBack(row, 10, e.objectNo);
    ReadsBack(row, 11, DeviceNo);
    ReadsBack(row, 12, e.funcNo);
  }

  /** `build_xlsx` up to the workbook boilerplate: the dimension and the sheet data. */
  method BuildSheet(entries: seq<Entry>, names: map<string, string>) returns (dimension: string, sheetData: string)
    ensures dimension == "A1:N" + IntToString(|entries| + 1)
    ensures sheetData == SheetData(Rows(entries, names))
  {
    var rows := BuildRows(entries, names);
    RowsOf(entries, names, rows);
    dimension, sheetData := RenderSheet(rows, |Headers|);
    DimensionExamples(|rows|);
  }

  lemma RowsOf(entries: seq<Entry>, names: map<string, string>, rows: seq<seq<string>>)
    requires |rows| == |entries| + 1 && rows[0] == Headers
    requires forall i :: 0 <= i < |entries| ==> rows[i + 1] == Row(entries[i], names)
    ensures rows == Rows(entries, names)
  {
  }
}
