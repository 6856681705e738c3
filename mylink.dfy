/**
 * The command-line converter (`knx_mylink_converter.py`): fixed numbering
 * with two 80-slot modules per main group, objects numbered inside their
 * module, and a 12-column mapping sheet.
 */
module MyLink {
  import opened Wrappers
  import opened Text
  import opened GroupAddress
  import opened Convention
  import opened Document
  import opened Worksheet

  const BlocksPerMain: int := 2

  /** `should_convert`: mains 1..4, a middle level in the function table, subs 1..160. */
  predicate ShouldConvert(main: int, middle: int, sub: int)
  {
    1 <= main <= 4 && middle in Functions && 1 <= sub <= 80 * 2
  }

  datatype ClassifyError = SubBelowOne

  /**
   * `classify_object`: the 1-based block of the sub and, inside it, a light
   * numbered 1..64 or a group numbered 1..16; a sub below 1 is an error.
   */
  function ClassifyObject(sub: int): (r: Result<(int, ObjectType, int), ClassifyError>)
    ensures r.Err? <==> sub < 1
    ensures r.Ok? ==>
      var (block, t, no) := r.value;
      && block >= 1
      && (t == Light ==> 1 <= no <= 64 && sub == (block - 1) * 80 + no)
      && (t == Group ==> 1 <= no <= 16 && sub == (block - 1) * 80 + 64 + no)
  {
    if sub < 1 then Err(SubBelowOne)
    else
      var block := (sub - 1) / 80 + 1;
      var local := (sub - 1) % 80 + 1;
      if local <= 64 then Ok((block, Light, local)) else Ok((block, Group, local - 64))
  }

  /** A sub within the converted range lies in block 1 or 2. */
  lemma ClassifyObjectBlock(sub: int)
    requires 1 <= sub <= 160
    ensures 1 <= ClassifyObject(sub).value.0 <= BlocksPerMain
  {
  }

  /** One line of the mapping table. */
  datatype Row = Row(
    name: string, address: string, main: int, middle: int, sub: int,
    moduleGlobal: int, moduleInMain: int, objectType: ObjectType, objectNo: int,
    deviceNo: int, funcNo: int, funcName: string)

  /** What the loop body of `convert` makes of one element: its row, or nothing when it is skipped. */
  function ConvertOne(e: Element): Option<Row>
  {
    var address := Get(e, "Address", "");
    if !IsGroupAddress(e) || address == "" then None
    else match ParseAddress(address)
      case Err(_) => None
      case Ok(a) =>
        if !ShouldConvert(a.main, a.middle, a.sub) then None
        else
          var (funcName, funcNo) := Functions[a.middle];
          var (block, t, no) := ClassifyObject(a.sub).value;
          Some(Row(BuildName(t, no, funcNo), address, a.main, a.middle, a.sub,
                   (a.main - 1) * 2 + block, block, t, no, DeviceNo, funcNo, funcName))
  }

  /** The element after the loop body: renamed when converted, untouched otherwise. */
  function Converted(e: Element): Element
  {
    match ConvertOne(e)
    case None => e
    case Some(row) => Set(e, "Name", row.name)
  }

  /** The rows of the converted elements, in document order. */
  function ConvertedRows(doc: seq<Element>): seq<Row>
  {
    if doc == [] then []
    else
      var rest := ConvertedRows(doc[..|doc| - 1]);
      match ConvertOne(doc[|doc| - 1])
      case None => rest
      case Some(row) => rest + [row]
  }

  lemma ConvertedRowsStep(doc: seq<Element>, i: int)
    requires 0 <= i < |doc|
    ensures ConvertOne(doc[i]).None? ==> ConvertedRows(doc[..i + 1]) == ConvertedRows(doc[..i])
    ensures ConvertOne(doc[i]).Some? ==> ConvertedRows(doc[..i + 1]) == ConvertedRows(doc[..i]) + [ConvertOne(doc[i]).value]
  {
    assert doc[..i + 1][..i] == doc[..i];
  }

  /** The document after the loop: every element passed through the loop body. */
  function ConvertedDoc(doc: seq<Element>): (out: seq<Element>)
    ensures |out| == |doc|
  {
    if doc == [] then [] else ConvertedDoc(doc[..|doc| - 1]) + [Converted(doc[|doc| - 1])]
  }

  lemma ConvertedDocStep(doc: seq<Element>, i: int)
    requires 0 <= i < |doc|
    ensures ConvertedDoc(doc[..i + 1]) == ConvertedDoc(doc[..i]) + [Converted(doc[i])]
  {
    assert doc[..i + 1][..i] == doc[..i];
  }

  /** Element k of the converted document is element k of the input after the loop body. */
  lemma {:induction false} ConvertedDocAt(doc: seq<Element>)
    ensures forall k :: 0 <= k < |doc| ==> ConvertedDoc(doc)[k] == Converted(doc[k])
  {
    if doc != [] {
      var init := doc[..|doc| - 1];
      ConvertedDocAt(init);
      assert forall k :: 0 <= k < |init| ==> init[k] == doc[k];
    }
  }

  lemma ConvertedOf(e: Element, one: Option<Row>)
    requires one == ConvertOne(e)
    ensures Converted(e) == if one.Some? then Set(e, "Name", one.value.name) else e
  {
  }

  /**
   * `convert` without the file I/O: the renamed document, the rows and the
   * two counts it returns.
   */
  method Convert(doc: seq<Element>) returns (out: seq<Element>, rows: seq<Row>, converted: int, rowCount: int)
    ensures |out| == |doc|
    ensures forall i :: 0 <= i < |doc| ==> out[i] == Converted(doc[i])
    ensures rows == ConvertedRows(doc)
    ensures converted == rowCount == |rows|
  {
    out, rows, converted := [], [], 0;
    for i := 0 to |doc|
      invariant out == ConvertedDoc(doc[..i])
      invariant rows == ConvertedRows(doc[..i])
      invariant converted == |rows|
    {
      var e := doc[i];
      var one := ConvertOne(e);
      ConvertedRowsStep(doc, i);
      ConvertedDocStep(doc, i);
      ConvertedOf(e, one);
      var next;
      if one.Some? {
        var row := one.value;
        next := Set(e, "Name", row.name);
        converted := converted + 1;
        rows := rows + [row];
      } else {
        next := e;
      }
      out := out + [next];
    }
    assert doc[..|doc|] == doc;
    ConvertedDocAt(doc);
    rowCount := |rows|;
  }

  /**
   * An element is converted exactly when it is a GroupAddress whose
   * non-empty Address parses and passes `should_convert`; its row then
   * carries that address, the name built from its classification and the
   * table's function code, and a global module in 1..8.  Only Name
   * changes, and only on converted elements.
   */
  lemma ConvertOneSpec(e: Element)
    ensures var a := Get(e, "Address", "");
      ConvertOne(e).Some? <==>
        && IsGroupAddress(e) && a != "" && ParseAddress(a).Ok?
        && ShouldConvert(ParseAddress(a).value.main, ParseAddress(a).value.middle, ParseAddress(a).value.sub)
    ensures ConvertOne(e).Some? ==>
      var r := ConvertOne(e).value;
      && r.address == Get(e, "Address", "")
      && ParseAddress(r.address) == Ok(Address(r.main, r.middle, r.sub))
      && (r.funcName, r.funcNo) == Functions[r.middle]
      && ClassifyObject(r.sub) == Ok((r.moduleInMain, r.objectType, r.objectNo))
      && r.name == BuildName(r.objectType, r.objectNo, r.funcNo)
      && 1 <= r.moduleInMain <= BlocksPerMain
      && r.moduleGlobal == (r.main - 1) * BlocksPerMain + r.moduleInMain
      && 1 <= r.moduleGlobal <= 8
      && r.deviceNo == DeviceNo
    ensures Converted(e).tag == e.tag
    ensures forall k :: k != "Name" ==> Get(Converted(e), k, "") == Get(e, k, "")
    ensures ConvertOne(e).Some? ==> Converted(e).attrs.Keys == e.attrs.Keys + {"Name"}
    ensures forall k :: k in e.attrs && k != "Name" ==> Converted(e).attrs[k] == e.attrs[k]
    ensures ConvertOne(e).Some? ==> Get(Converted(e), "Name", "") == ConvertOne(e).value.name
    ensures ConvertOne(e).None? ==> Converted(e) == e
  {
    if ConvertOne(e).Some? {
      ClassifyObjectBlock(ConvertOne(e).value.sub);
      SetSpec(e, "Name", ConvertOne(e).value.name);
    }
  }

  /** Every row comes from a converted element of the document. */
  lemma {:induction false} ConvertedRowsSpec(doc: seq<Element>)
    ensures forall r :: r in ConvertedRows(doc) ==> exists e :: e in doc && ConvertOne(e) == Some(r)
  {
    if doc != [] {
      ConvertedRowsSpec(doc[..|doc| - 1]);
      forall r | r in ConvertedRows(doc)
        ensures exists e :: e in doc && ConvertOne(e) == Some(r)
      {
        if r in ConvertedRows(doc[..|doc| - 1]) {
          var e :| e in doc[..|doc| - 1] && ConvertOne(e) == Some(r);
          assert e in doc;
        } else {
          assert ConvertOne(doc[|doc| - 1]) == Some(r);
        }
      }
    }
  }

  /** The document positions of the converted elements, in document order. */
  function ConvertedIndexes(doc: seq<Element>): seq<int>
  {
    if doc == [] then []
    else
      var rest := ConvertedIndexes(doc[..|doc| - 1]);
      if ConvertOne(doc[|doc| - 1]).Some? then rest + [|doc| - 1] else rest
  }

  /** Row j is the row of the element at the j-th recorded position. */
  lemma {:induction false} ConvertedIndexesAt(doc: seq<Element>)
    ensures |ConvertedIndexes(doc)| == |ConvertedRows(doc)|
    ensures forall j :: 0 <= j < |ConvertedIndexes(doc)| ==>
      && 0 <= ConvertedIndexes(doc)[j] < |doc|
      && ConvertOne(doc[ConvertedIndexes(doc)[j]]) == Some(ConvertedRows(doc)[j])
  {
    if doc != [] {
      var init := doc[..|doc| - 1];
      ConvertedIndexesAt(init);
      forall j | 0 <= j < |ConvertedIndexes(init)|
        ensures doc[ConvertedIndexes(init)[j]] == init[ConvertedIndexes(init)[j]]
      {
      }
    }
  }

  /** The recorded positions strictly increase. */
  lemma {:induction false} ConvertedIndexesIncreasing(doc: seq<Element>)
    ensures forall j :: 0 <= j < |ConvertedIndexes(doc)| ==> 0 <= ConvertedIndexes(doc)[j] < |doc|
    ensures forall j, k :: 0 <= j < k < |ConvertedIndexes(doc)| ==> ConvertedIndexes(doc)[j] < ConvertedIndexes(doc)[k]
  {
    if doc != [] {
      ConvertedIndexesIncreasing(doc[..|doc| - 1]);
    }
  }

  /** Every position holding a converted element is recorded. */
  lemma {:induction false} ConvertedIndexesCover(doc: seq<Element>)
    ensures forall i :: 0 <= i < |doc| && ConvertOne(doc[i]).Some? ==> i in ConvertedIndexes(doc)
  {
    if doc != [] {
      var init := doc[..|doc| - 1];
      ConvertedIndexesCover(init);
      assert forall i :: 0 <= i < |init| ==> init[i] == doc[i];
    }
  }

  /**
   * The rows are those of the converted elements, one per converted
   * position, in document order, so an address that occurs twice gives two
   * rows.
   */
  lemma RowsInOrder(doc: seq<Element>)
    ensures |ConvertedIndexes(doc)| == |ConvertedRows(doc)|
    ensures forall j :: 0 <= j < |ConvertedRows(doc)| ==>
      && 0 <= ConvertedIndexes(doc)[j] < |doc|
      && ConvertOne(doc[ConvertedIndexes(doc)[j]]) == Some(ConvertedRows(doc)[j])
    ensures forall j, k :: 0 <= j < k < |ConvertedIndexes(doc)| ==> ConvertedIndexes(doc)[j] < ConvertedIndexes(doc)[k]
    ensures forall i :: 0 <= i < |doc| && ConvertOne(doc[i]).Some? ==> i in ConvertedIndexes(doc)
  {
    ConvertedIndexesAt(doc);
    ConvertedIndexesIncreasing(doc);
    ConvertedIndexesCover(doc);
  }

  /**
   * Names repeat from module to module, but a name together with its global
   * module identifies the group address: two rows that agree on both agree
   * on main, middle and sub.
   */
  lemma RowIdentity(e1: Element, e2: Element)
    requires ConvertOne(e1).Some? && ConvertOne(e2).Some?
    requires ConvertOne(e1).value.name == ConvertOne(e2).value.name
    requires ConvertOne(e1).value.moduleGlobal == ConvertOne(e2).value.moduleGlobal
    ensures var r1, r2 := ConvertOne(e1).value, ConvertOne(e2).value;
      r1.main == r2.main && r1.middle == r2.middle && r1.sub == r2.sub
  {
    var r1, r2 := ConvertOne(e1).value, ConvertOne(e2).value;
    ConvertOneSpec(e1);
    ConvertOneSpec(e2);
    BuildNameInjective(r1.objectType, r1.objectNo, r1.funcNo, r2.objectType, r2.objectNo, r2.funcNo);
    FunctionTableShape();
  }

  /**
   * The global module numbering of the converter: with module in main in
   * 1..2, distinct (main, module in main) pairs get distinct global modules.
   */
  lemma ModuleGlobalDistinct(main1: int, block1: int, main2: int, block2: int)
    requires 1 <= block1 <= BlocksPerMain && 1 <= block2 <= BlocksPerMain
    requires (main1, block1) != (main2, block2)
    ensures (main1 - 1) * BlocksPerMain + block1 != (main2 - 1) * BlocksPerMain + block2
  {
  }

  /** Sub 1 of middle level 1 in main 1..4: light 1 of the main's first module, switch write. */
  lemma FirstLightRow(main: int)
    requires 1 <= main <= 4
    ensures var e := Element(GroupAddressTag, map["Address" := FormatAddress(Address(main, 1, 1))]);
      && ConvertOne(e).Some?
      && ConvertOne(e).value.name == BuildName(Light, 1, 3)
      && ConvertOne(e).value.moduleGlobal == (main - 1) * 2 + 1
  {
    ParseFormatRoundTrip(Address(main, 1, 1));
  }

  /**
   * The same light number recurs in every main: sub 1 of main 1 and of
   * main 2 are both "灯1 9 3", in global modules 1 and 3.
   */
  lemma NamesRepeatAcrossMains()
    ensures var e1 := Element(GroupAddressTag, map["Address" := FormatAddress(Address(1, 1, 1))]);
      var e2 := Element(GroupAddressTag, map["Address" := FormatAddress(Address(2, 1, 1))]);
      && ConvertOne(e1).Some? && ConvertOne(e2).Some?
      && ConvertOne(e1).value.name == ConvertOne(e2).value.name == "灯1 9 3"
      && ConvertOne(e1).value.moduleGlobal == 1 && ConvertOne(e2).value.moduleGlobal == 3
  {
    FirstLightRow(1);
    FirstLightRow(2);
    NameExample();
  }

  const Headers: seq<string> := [
    "Name", "Address", "Main", "Middle", "Sub", "ModuleGlobal", "ModuleInMain",
    "ObjectType", "ObjectNo", "DeviceNo", "FunctionNo", "FunctionName"
  ]

  function Cells(r: Row): seq<string>
  {
    [r.name, r.address, IntToString(r.main), IntToString(r.middle), IntToString(r.sub),
     IntToString(r.moduleGlobal), IntToString(r.moduleInMain), [Label(r.objectType)],
     IntToString(r.objectNo), IntToString(r.deviceNo), IntToString(r.funcNo), r.funcName]
  }

  /** The header row followed by the cells of every row, in order. */
  function SheetRowsOf(rows: seq<Row>): (out: seq<seq<string>>)
    ensures |out| == |rows| + 1 && out[0] == Headers
  {
    if rows == [] then [Headers] else SheetRowsOf(rows[..|rows| - 1]) + [Cells(rows[|rows| - 1])]
  }

  /** Line i + 1 of the sheet holds the cells of row i. */
  lemma {:induction false} SheetRowsOfAt(rows: seq<Row>, i: int)
    requires 0 <= i < |rows|
    ensures SheetRowsOf(rows)[i + 1] == Cells(rows[i])
    decreases |rows|
  {
    var init := rows[..|rows| - 1];
    if i < |init| {
      SheetRowsOfAt(init, i);
      assert init[i] == rows[i];
    }
  }

  /** Every row has one cell per header; the text cells hold the name, address, type label and function name. */
  lemma CellsSpec(r: Row)
    ensures |Cells(r)| == |Headers| == 12
    ensures Cells(r)[0] == r.name && Cells(r)[1] == r.address
    ensures Cells(r)[7] == [Label(r.objectType)] && Cells(r)[11] == r.funcName
  {
  }

  /** The address columns read back as the row's main, middle and sub, and ModuleGlobal as its global module. */
  lemma CellsAddressNumbers(r: Row)
    ensures ParseInt(Cells(r)[2]) == Some(r.main)
    ensures ParseInt(Cells(r)[3]) == Some(r.middle)
    ensures ParseInt(Cells(r)[4]) == Some(r.sub)
    ensures ParseInt(Cells(r)[5]) == Some(r.moduleGlobal)
  {
    var c := Cells(r);
    ReadsBack(c, 2, r.main);
    ReadsBack(c, 3, r.middle);
    ReadsBack(c, 4, r.sub);
    ReadsBack(c, 5, r.moduleGlobal);
  }

  /** The object columns read back as the row's module in main, object number, device number and function code. */
  lemma CellsObjectNumbers(r: Row)
    ensures ParseInt(Cells(r)[6]) == Some(r.moduleInMain)
    ensures ParseInt(Cells(r)[8]) == Some(r.objectNo)
    ensures ParseInt(Cells(r)[9]) == Some(r.deviceNo)
    ensures ParseInt(Cells(r)[10]) == Some(r.funcNo)
  {
    var c := Cells(r);
    ReadsBack(c, 6, r.moduleInMain);
    ReadsBack(c, 8, r.objectNo);
    ReadsBack(c, 9, r.deviceNo);
    ReadsBack(c, 10, r.funcNo);
  }

  /** `write_xlsx` up to the workbook boilerplate: the dimension and the sheet data. */
  method WriteSheet(rows: seq<Row>) returns (dimension: string, sheetData: string)
    ensures dimension == "A1:L" + IntToString(|rows| + 1)
    ensures sheetData == SheetData(SheetRowsOf(rows))
  {
    var allRows := [Headers];
    for i := 0 to |rows|
      invariant allRows == SheetRowsOf(rows[..i])
    {
      var r := rows[i];
      allRows := allRows + [[r.name, r.address, IntToString(r.main), IntToString(r.middle), IntToString(r.sub),
                             IntToString(r.moduleGlobal), IntToString(r.moduleInMain), [Label(r.objectType)],
                             IntToString(r.objectNo), IntToString(r.deviceNo), IntToString(r.funcNo), r.funcName]];
      assert rows[..i + 1][..i] == rows[..i];
    }
    assert rows[..|rows|] == rows;
    dimension, sheetData := RenderSheet(allRows, |Headers|);
    DimensionExamples(|allRows|);
  }
}
