/**
 * The browser side of the web tool (JavaScript embedded in the page): base
 * names, the template CSV the page downloads (`buildTemplateCsv`), its line
 * parser (`parseCsvLine`) and the upload that renames entries from a
 * template (`applyTemplateCsv`).
 */
module Template {
  import opened Wrappers
  import opened Text
  import opened Convention
  import opened Resolver

  /** `parseBaseName`: drop the " 9 <funcNo>" suffix when the name has it. */
  function ParseBaseName(finalName: string, funcNo: int): (base: string)
    ensures EndsWith(finalName, Suffix(funcNo)) ==> base + Suffix(funcNo) == finalName
    ensures !EndsWith(finalName, Suffix(funcNo)) ==> base == finalName
  {
    var suffix := Suffix(funcNo);
    if EndsWith(finalName, suffix) then finalName[..|finalName| - |suffix|] else finalName
  }

  /** Any base name comes back from the name built on it. */
  lemma ParseBaseNameRoundTrip(base: string, funcNo: int)
    ensures ParseBaseName(base + Suffix(funcNo), funcNo) == base
  {
    var s := base + Suffix(funcNo);
    assert s[|s| - |Suffix(funcNo)|..] == Suffix(funcNo);
    assert s[..|s| - |Suffix(funcNo)|] == base;
  }

  // ---------------------------------------------------------------------
  // CSV fields

  /** `replaceAll('"', '""')`. */
  function Quote(s: string): (q: string)
    ensures |q| >= |s|
  {
    if s == "" then "" else (if s[0] == '"' then "\"\"" else [s[0]]) + Quote(s[1..])
  }

  /** The state machine of `parseCsvLine` from position i on. */
  function CsvFrom(line: string, i: nat, cur: string, inQuote: bool, out: seq<string>): seq<string>
    requires i <= |line|
    decreases |line| - i
  {
    if i == |line| then out + [cur]
    else if line[i] == '"' then
      if inQuote && i + 1 < |line| && line[i + 1] == '"' then CsvFrom(line, i + 2, cur + "\"", inQuote, out)
      else CsvFrom(line, i + 1, cur, !inQuote, out)
    else if line[i] == ',' && !inQuote then CsvFrom(line, i + 1, "", inQuote, out + [cur])
    else CsvFrom(line, i + 1, cur + [line[i]], inQuote, out)
  }

  /** The fields of one CSV line. */
  function CsvFields(line: string): seq<string>
  {
    CsvFrom(line, 0, "", false, [])
  }

  /** `parseCsvLine`. */
  method ParseCsvLine(line: string) returns (out: seq<string>)
    ensures out == CsvFields(line)
  {
    out := [];
    var cur := "";
    var inQuote := false;
    var i := 0;
    while i < |line|
      invariant i <= |line|
      invariant CsvFrom(line, i, cur, inQuote, out) == CsvFields(line)
      decreases |line| - i
    {
      var ch := line[i];
      if ch == '"' {
        if inQuote && i + 1 < |line| && line[i + 1] == '"' {
          cur := cur + "\"";
          i := i + 1;
        } else {
          inQuote := !inQuote;
        }
      } else if ch == ',' && !inQuote {
        out := out + [cur];
        cur := "";
      } else {
        cur := cur + [ch];
      }
      i := i + 1;
    }
    out := out + [cur];
  }

  /** A run without quotes or commas, outside quotes, is copied into the current field. */
  lemma {:induction false} CsvPlain(line: string, i: nat, j: nat, cur: string, out: seq<string>)
    requires i <= j <= |line|
    requires forall k :: i <= k < j ==> line[k] != '"' && line[k] != ','
    ensures CsvFrom(line, i, cur, false, out) == CsvFrom(line, j, cur + line[i..j], false, out)
    decreases j - i
  {
    if i < j {
      CsvPlain(line, i + 1, j, cur + [line[i]], out);
      assert cur + [line[i]] + line[i + 1..j] == cur + line[i..j];
    } else {
      assert cur + line[i..j] == cur;
    }
  }

  /** Inside quotes, the quoted form of b is read back as b. */
  lemma {:induction false} CsvQuoted(line: string, i: nat, b: string, cur: string, out: seq<string>)
    requires i + |Quote(b)| <= |line| && line[i..i + |Quote(b)|] == Quote(b)
    ensures CsvFrom(line, i, cur, true, out) == CsvFrom(line, i + |Quote(b)|, cur + b, true, out)
    decreases |b|
  {
    if b == "" {
      assert cur + b == cur;
    } else {
      var head := if b[0] == '"' then "\"\"" else [b[0]];
      var n := |head|;
      assert Quote(b) == head + Quote(b[1..]);
      assert line[i + n..i + n + |Quote(b[1..])|] == Quote(b[1..]) by {
        assert line[i + n..i + n + |Quote(b[1..])|] == line[i..i + |Quote(b)|][n..];
      }
      assert line[i] == head[0];
      if b[0] == '"' {
        assert line[i + 1] == '"';
      }
      CsvQuoted(line, i + n, b[1..], cur + [b[0]], out);
      assert cur + [b[0]] + b[1..] == cur + b;
    }
  }

  /** One data line of the template: type, number and the quoted base name. */
  function TemplateLine(t: string, noText: string, base: string): string
  {
    t + "," + noText + ",\"" + Quote(base) + "\""
  }

  predicate PlainField(s: string) { '"' !in s && ',' !in s }

  /**
   * A template line reads back as its three fields, whatever the base name
   * holds (quotes, commas, spaces), as long as type and number need no quoting.
   */
  /** An unquoted field followed by a comma is read as one field. */
  lemma CsvPlainField(line: string, i: nat, a: string, out: seq<string>)
    requires PlainField(a)
    requires i + |a| < |line| && line[i..i + |a|] == a && line[i + |a|] == ','
    ensures CsvFrom(line, i, "", false, out) == CsvFrom(line, i + |a| + 1, "", false, out + [a])
  {
    forall k | i <= k < i + |a|
      ensures line[k] != '"' && line[k] != ','
    {
      assert line[k] == a[k - i];
    }
    CsvPlain(line, i, i + |a|, "", out);
    assert "" + line[i..i + |a|] == a;
  }

  /** An unquoted field that ends the line is read as the last field. */
  lemma CsvPlainLast(line: string, i: nat, a: string, out: seq<string>)
    requires PlainField(a)
    requires i + |a| == |line| && line[i..] == a
    ensures CsvFrom(line, i, "", false, out) == out + [a]
  {
    forall k | i <= k < |line|
      ensures line[k] != '"' && line[k] != ','
    {
      assert line[k] == a[k - i];
    }
    CsvPlain(line, i, |line|, "", out);
    assert "" + line[i..|line|] == a;
  }

  /** A quoted field that ends the line is read back as the text inside the quotes. */
  lemma CsvQuotedLast(line: string, i: nat, b: string, out: seq<string>)
    requires i + |Quote(b)| + 2 == |line|
    requires line[i] == '"' && line[i + 1..i + 1 + |Quote(b)|] == Quote(b) && line[|line| - 1] == '"'
    ensures CsvFrom(line, i, "", false, out) == out + [b]
  {
    CsvQuoted(line, i + 1, b, "", out);
    assert "" + b == b;
  }

  /** Where the three fields and their separators sit in a template line. */
  lemma TemplateLineLayout(t: string, noText: string, base: string)
    ensures |TemplateLine(t, noText, base)| == |t| + |noText| + |Quote(base)| + 4
    ensures TemplateLine(t, noText, base)[0..|t|] == t
    ensures TemplateLine(t, noText, base)[|t|] == ','
    ensures TemplateLine(t, noText, base)[|t| + 1..|t| + 1 + |noText|] == noText
    ensures TemplateLine(t, noText, base)[|t| + 1 + |noText|] == ','
    ensures TemplateLine(t, noText, base)[|t| + |noText| + 2] == '"'
    ensures TemplateLine(t, noText, base)[|t| + |noText| + 3..|t| + |noText| + 3 + |Quote(base)|] == Quote(base)
    ensures TemplateLine(t, noText, base)[|t| + |noText| + |Quote(base)| + 3] == '"'
  {
    var line := TemplateLine(t, noText, base);
    assert line == t + "," + noText + "," + ("\"" + Quote(base) + "\"");
  }

  lemma TemplateLineFields(t: string, noText: string, base: string)
    requires PlainField(t) && PlainField(noText)
    ensures CsvFields(TemplateLine(t, noText, base)) == [t, noText, base]
  {
    var line := TemplateLine(t, noText, base);
    TemplateLineLayout(t, noText, base);
    CsvPlainField(line, 0, t, []);
    assert [] + [t] == [t];
    CsvPlainField(line, |t| + 1, noText, [t]);
    assert [t] + [noText] == [t, noText];
    CsvQuotedLast(line, |t| + |noText| + 2, base, [t, noText]);
    assert [t, noText] + [base] == [t, noText, base];
  }

  const HeaderLine: string := "object_type,object_no,base_name"

  /** Three fields that need no quoting, separated by commas, read back as themselves. */
  lemma PlainLineFields(a: string, b: string, c: string)
    requires PlainField(a) && PlainField(b) && PlainField(c)
    ensures CsvFields(a + "," + b + "," + c) == [a, b, c]
  {
    var line := a + "," + b + "," + c;
    var p1 := |a|;
    var p2 := p1 + 1 + |b|;
    assert line[0..p1] == a && line[p1] == ',';
    assert line[p1 + 1..p2] == b && line[p2] == ',';
    assert line[p2 + 1..] == c;
    CsvPlainField(line, 0, a, []);
    assert [] + [a] == [a];
    CsvPlainField(line, p1 + 1, b, [a]);
    assert [a] + [b] == [a, b];
    CsvPlainLast(line, p2 + 1, c, [a, b]);
    assert [a, b] + [c] == [a, b, c];
  }

  /** The header line splits into the three column names. */
  lemma HeaderFields()
    ensures CsvFields(HeaderLine) == ["object_type", "object_no", "base_name"]
  {
    assert HeaderLine == "object_type" + "," + "object_no" + "," + "base_name";
    PlainLineFields("object_type", "object_no", "base_name");
  }

  // ---------------------------------------------------------------------
  // Template download

  /** One template row: an object and the base name of its first entry. */
  datatype TemplateItem = TemplateItem(objectType: ObjectType, objectNo: int, baseName: string)

  function ItemOf(e: Entry): TemplateItem
  {
    TemplateItem(e.objectType, e.objectNo, ParseBaseName(e.finalName, e.funcNo))
  }

  function KeySet(items: seq<TemplateItem>): set<(ObjectType, int)>
  {
    set i | 0 <= i < |items| :: (items[i].objectType, items[i].objectNo)
  }

  /** The `uniq` map of `buildTemplateCsv`: one item per object, from its first entry, in first-seen order. */
  function Items(entries: seq<Entry>): seq<TemplateItem>
  {
    if entries == [] then []
    else
      var prev := Items(entries[..|entries| - 1]);
      var e := entries[|entries| - 1];
      if (e.objectType, e.objectNo) in KeySet(prev) then prev else prev + [ItemOf(e)]
  }

  /** `${object_type},${object_no},"${base with quotes doubled}"`. */
  function ItemLine(item: TemplateItem): string
  {
    TemplateLine([Label(item.objectType)], IntToString(item.objectNo), item.baseName)
  }

  function ItemLines(items: seq<TemplateItem>): (lines: seq<string>)
    ensures |lines| == |items|
  {
    if items == [] then [] else ItemLines(items[..|items| - 1]) + [ItemLine(items[|items| - 1])]
  }

  /** The CSV text `buildTemplateCsv` returns. */
  function TemplateCsv(entries: seq<Entry>): string
  {
    JoinWith([HeaderLine] + ItemLines(Items(entries)), '\n')
  }

  lemma ItemsStep(entries: seq<Entry>, i: int)
    requires 0 <= i < |entries|
    ensures var prev, e := Items(entries[..i]), entries[i];
      Items(entries[..i + 1]) == if (e.objectType, e.objectNo) in KeySet(prev) then prev else prev + [ItemOf(e)]
  {
    assert entries[..i + 1][..i] == entries[..i];
  }

  lemma KeySetSnoc(items: seq<TemplateItem>, item: TemplateItem)
    ensures KeySet(items + [item]) == KeySet(items) + {(item.objectType, item.objectNo)}
  {
    var r := items + [item];
    forall k | k in KeySet(r)
      ensures k in KeySet(items) + {(item.objectType, item.objectNo)}
    {
      var i :| 0 <= i < |r| && k == (r[i].objectType, r[i].objectNo);
      if i < |items| {
        assert r[i] == items[i];
      }
    }
    forall k | k in KeySet(items)
      ensures k in KeySet(r)
    {
      var i :| 0 <= i < |items| && k == (items[i].objectType, items[i].objectNo);
      assert r[i] == items[i];
    }
    assert (r[|items|].objectType, r[|items|].objectNo) in KeySet(r);
  }

  lemma ItemLinesStep(items: seq<TemplateItem>, i: int)
    requires 0 <= i < |items|
    ensures ItemLines(items[..i + 1]) == ItemLines(items[..i]) + [ItemLine(items[i])]
  {
    assert items[..i + 1][..i] == items[..i];
  }

  /** The first loop of `buildTemplateCsv`: the `uniq` map, kept with the set of its keys. */
  method UniqueItems(entries: seq<Entry>) returns (uniq: seq<TemplateItem>)
    ensures uniq == Items(entries)
  {
    uniq := [];
    var seen: set<(ObjectType, int)> := {};
    for i := 0 to |entries|
      invariant uniq == Items(entries[..i])
      invariant seen == KeySet(uniq)
    {
      var e := entries[i];
      ItemsStep(entries, i);
      var key := (e.objectType, e.objectNo);
      if key !in seen {
        var item := TemplateItem(e.objectType, e.objectNo, ParseBaseName(e.finalName, e.funcNo));
        KeySetSnoc(uniq, item);
        uniq := uniq + [item];
        seen := seen + {key};
      }
    }
    assert entries[..|entries|] == entries;
  }

  /** `buildTemplateCsv`. */
  method BuildTemplateCsv(entries: seq<Entry>) returns (csv: string)
    ensures csv == TemplateCsv(entries)
  {
    var uniq := UniqueItems(entries);
    var rows := [HeaderLine];
    for i := 0 to |uniq|
      invariant rows == [HeaderLine] + ItemLines(uniq[..i])
    {
      var item := uniq[i];
      var base := Quote(item.baseName);
      ItemLinesStep(uniq, i);
      rows := rows + [[Label(item.objectType)] + "," + IntToString(item.objectNo) + ",\"" + base + "\""];
    }
    assert uniq[..|uniq|] == uniq;
    csv := JoinWith(rows, '\n');
  }

  function EntryKeys(entries: seq<Entry>): set<(ObjectType, int)>
  {
    set j | 0 <= j < |entries| :: (entries[j].objectType, entries[j].objectNo)
  }

  predicate KeysUnique(items: seq<TemplateItem>)
  {
    forall i, j :: 0 <= i < j < |items| ==> (items[i].objectType, items[i].objectNo) != (items[j].objectType, items[j].objectNo)
  }

  /** The item was made from an entry that is the first one with its object. */
  ghost predicate FromFirst(entries: seq<Entry>, item: TemplateItem)
  {
    exists f :: 0 <= f < |entries| && item == ItemOf(entries[f])
      && forall k :: 0 <= k < f ==> (entries[k].objectType, entries[k].objectNo) != (entries[f].objectType, entries[f].objectNo)
  }

  lemma EntryKeysSnoc(entries: seq<Entry>)
    requires entries != []
    ensures var e := entries[|entries| - 1];
      EntryKeys(entries) == EntryKeys(entries[..|entries| - 1]) + {(e.objectType, e.objectNo)}
  {
    var init := entries[..|entries| - 1];
    forall k | k in EntryKeys(init)
      ensures k in EntryKeys(entries)
    {
      var j :| 0 <= j < |init| && k == (init[j].objectType, init[j].objectNo);
      assert entries[j] == init[j];
    }
    forall k | k in EntryKeys(entries)
      ensures k in EntryKeys(init) + {(entries[|entries| - 1].objectType, entries[|entries| - 1].objectNo)}
    {
      var j :| 0 <= j < |entries| && k == (entries[j].objectType, entries[j].objectNo);
      if j < |init| {
        assert entries[j] == init[j];
      }
    }
  }

  /**
   * One item per object of the entries, no object twice, and each item made
   * from the first entry with its object.
   */
  lemma {:induction false} ItemsKeys(entries: seq<Entry>)
    ensures KeysUnique(Items(entries))
    ensures KeySet(Items(entries)) == EntryKeys(entries)
  {
    if entries != [] {
      var init := entries[..|entries| - 1];
      var e := entries[|entries| - 1];
      var key := (e.objectType, e.objectNo);
      var prev := Items(init);
      ItemsKeys(init);
      EntryKeysSnoc(entries);
      if key !in KeySet(prev) {
        KeySetSnoc(prev, ItemOf(e));
        forall i | 0 <= i < |prev|
          ensures (prev[i].objectType, prev[i].objectNo) != key
        {
          assert (prev[i].objectType, prev[i].objectNo) in KeySet(prev);
        }
      }
    }
  }

  lemma {:induction false} ItemsFromFirst(entries: seq<Entry>)
    ensures forall i :: 0 <= i < |Items(entries)| ==> FromFirst(entries, Items(entries)[i])
  {
    if entries != [] {
      var init := entries[..|entries| - 1];
      var e := entries[|entries| - 1];
      var key := (e.objectType, e.objectNo);
      var prev := Items(init);
      ItemsFromFirst(init);
      ItemsKeys(init);
      forall i | 0 <= i < |prev|
        ensures FromFirst(entries, prev[i])
      {
        var f :| 0 <= f < |init| && prev[i] == ItemOf(init[f])
          && forall k :: 0 <= k < f ==> (init[k].objectType, init[k].objectNo) != (init[f].objectType, init[f].objectNo);
        assert entries[f] == init[f];
        assert forall k :: 0 <= k < f ==> entries[k] == init[k];
      }
      if key !in KeySet(prev) {
        forall k | 0 <= k < |init|
          ensures (entries[k].objectType, entries[k].objectNo) != key
        {
          assert entries[k] == init[k];
          assert (init[k].objectType, init[k].objectNo) in EntryKeys(init);
        }
        assert FromFirst(entries, ItemOf(e));
      }
    }
  }

  lemma ItemsSpec(entries: seq<Entry>)
    ensures KeysUnique(Items(entries))
    ensures KeySet(Items(entries)) == EntryKeys(entries)
    ensures forall i :: 0 <= i < |Items(entries)| ==> FromFirst(entries, Items(entries)[i])
  {
    ItemsKeys(entries);
    ItemsFromFirst(entries);
  }


  // ---------------------------------------------------------------------
  // Template upload

  /** `replaceAll("\r\n", "\n")`. */
  function ReplaceCrLf(s: string): string
  {
    if s == "" then ""
    else if |s| >= 2 && s[0] == '\r' && s[1] == '\n' then "\n" + ReplaceCrLf(s[2..])
    else [s[0]] + ReplaceCrLf(s[1..])
  }

  /** `replaceAll("\r", "\n")`. */
  function CrToLf(s: string): string
  {
    seq(|s|, i requires 0 <= i < |s| => if s[i] == '\r' then '\n' else s[i])
  }

  function NormalizeNewlines(s: string): string
  {
    CrToLf(ReplaceCrLf(s))
  }

  /** `filter(Boolean)` on strings: drop the empty ones. */
  function NonEmpty(lines: seq<string>): seq<string>
  {
    if lines == [] then []
    else (if lines[0] == "" then [] else [lines[0]]) + NonEmpty(lines[1..])
  }

  /** The lines `applyTemplateCsv` works on. */
  function TemplateLines(text: string): seq<string>
  {
    NonEmpty(Split(NormalizeNewlines(text), '\n'))
  }

  /** `indexOf`: the first position of x, or -1. */
  function IndexOf(xs: seq<string>, x: string): (r: int)
    ensures r == -1 <==> x !in xs
    ensures r != -1 ==> 0 <= r < |xs| && xs[r] == x && x !in xs[..r]
  {
    if xs == [] then -1
    else if xs[0] == x then 0
    else
      var r := IndexOf(xs[1..], x);
      if r == -1 then -1
      else
        assert xs[..r + 1] == [xs[0]] + xs[1..][..r];
        r + 1
  }

  /** `cols[idx] || ""`: a missing column reads as empty. */
  function Col(cols: seq<string>, idx: int): string
  {
    if 0 <= idx < |cols| then cols[idx] else ""
  }

  /** `Number(s)` on a trimmed string, for integers: "" is 0, anything else must be a decimal integer. */
  function JsNumber(s: string): Option<int>
  {
    if s == "" then Some(0) else ParseInt(s)
  }

  datatype Columns = Columns(idxType: int, idxNo: int, idxBase: int)

  /** What one data line contributes: the object key and the trimmed base, unless it is skipped. */
  function Binding(fields: seq<string>, c: Columns): Option<((string, int), string)>
  {
    var t := Strip(Col(fields, c.idxType));
    var n := JsNumber(Strip(Col(fields, c.idxNo)));
    var b := Strip(Col(fields, c.idxBase));
    if t == "" || n.None? || b == "" then None else Some(((t, n.value), b))
  }

  /** `baseMap` after the data lines: a later line for the same object wins. */
  function BaseMap(lines: seq<string>, c: Columns): map<(string, int), string>
  {
    if lines == [] then map[]
    else
      var m := BaseMap(lines[..|lines| - 1], c);
      match Binding(CsvFields(lines[|lines| - 1]), c)
      case None => m
      case Some((key, b)) => m[key := b]
  }

  /** The key the page builds for an entry: its type label and number. */
  function KeyOf(e: Entry): (string, int)
  {
    ([Label(e.objectType)], e.objectNo)
  }

  function Applied(e: Entry, baseMap: map<(string, int), string>): Entry
  {
    if KeyOf(e) in baseMap then e.(finalName := baseMap[KeyOf(e)] + Suffix(e.funcNo)) else e
  }

  function ChangedCount(entries: seq<Entry>, baseMap: map<(string, int), string>): nat
  {
    if entries == [] then 0
    else ChangedCount(entries[..|entries| - 1], baseMap) + (if KeyOf(entries[|entries| - 1]) in baseMap then 1 else 0)
  }

  datatype TemplateError = EmptyTemplate | MissingColumns

  /** `.map((x) => x.trim())`. */
  function TrimAll(fields: seq<string>): seq<string>
  {
    seq(|fields|, i requires 0 <= i < |fields| => Strip(fields[i]))
  }

  function HeaderColumns(headerLine: string): Columns
  {
    var header := TrimAll(CsvFields(headerLine));
    Columns(IndexOf(header, "object_type"), IndexOf(header, "object_no"), IndexOf(header, "base_name"))
  }

  /** The outcome of `applyTemplateCsv`: the updated entries and the count it reports, or its error. */
  function ApplyTemplate(text: string, entries: seq<Entry>): Result<(seq<Entry>, nat), TemplateError>
  {
    var lines := TemplateLines(text);
    if |lines| < 2 then Err(EmptyTemplate)
    else
      var c := HeaderColumns(lines[0]);
      if c.idxType < 0 || c.idxNo < 0 || c.idxBase < 0 then Err(MissingColumns)
      else
        var baseMap := BaseMap(lines[1..], c);
        Ok((seq(|entries|, i requires 0 <= i < |entries| => Applied(entries[i], baseMap)), ChangedCount(entries, baseMap)))
  }

  /** The header step of `applyTemplateCsv`: trimmed header fields and the three column positions. */
  method ReadColumns(headerLine: string) returns (c: Columns)
    ensures c == HeaderColumns(headerLine)
  {
    var headerFields := ParseCsvLine(headerLine);
    var header := TrimAll(headerFields);
    var idxType := IndexOf(header, "object_type");
    var idxNo := IndexOf(header, "object_no");
    var idxBase := IndexOf(header, "base_name");
    c := Columns(idxType, idxNo, idxBase);
  }

  lemma BaseMapStep(data: seq<string>, i: int, c: Columns)
    requires 0 <= i < |data|
    ensures BaseMap(data[..i + 1], c) == match Binding(CsvFields(data[i]), c)
      case None => BaseMap(data[..i], c)
      case Some((key, b)) => BaseMap(data[..i], c)[key := b]
  {
    assert data[..i + 1][..i] == data[..i];
  }

  /** The data-line loop of `applyTemplateCsv`. */
  method CollectBases(data: seq<string>, c: Columns) returns (baseMap: map<(string, int), string>)
    ensures baseMap == BaseMap(data, c)
  {
    baseMap := map[];
    for i := 0 to |data|
      invariant baseMap == BaseMap(data[..i], c)
    {
      var cols := ParseCsvLine(data[i]);
      var t := Strip(Col(cols, c.idxType));
      var n := JsNumber(Strip(Col(cols, c.idxNo)));
      var b := Strip(Col(cols, c.idxBase));
      BaseMapStep(data, i, c);
      if t != "" && n.Some? && b != "" {
        baseMap := baseMap[(t, n.value) := b];
      }
    }
    assert data[..|data|] == data;
  }

  lemma ChangedCountStep(entries: seq<Entry>, i: int, baseMap: map<(string, int), string>)
    requires 0 <= i < |entries|
    ensures ChangedCount(entries[..i + 1], baseMap) == ChangedCount(entries[..i], baseMap) + if KeyOf(entries[i]) in baseMap then 1 else 0
  {
    assert entries[..i + 1][..i] == entries[..i];
  }

  /** The renaming loop of `applyTemplateCsv`. */
  method ApplyBases(entries: seq<Entry>, baseMap: map<(string, int), string>) returns (updated: seq<Entry>, changed: nat)
    ensures updated == seq(|entries|, i requires 0 <= i < |entries| => Applied(entries[i], baseMap))
    ensures changed == ChangedCount(entries, baseMap)
  {
    updated := entries;
    changed := 0;
    for i := 0 to |entries|
      invariant |updated| == |entries|
      invariant forall k :: 0 <= k < i ==> updated[k] == Applied(entries[k], baseMap)
      invariant forall k :: i <= k < |entries| ==> updated[k] == entries[k]
      invariant changed == ChangedCount(entries[..i], baseMap)
    {
      var e := entries[i];
      var key := ([Label(e.objectType)], e.objectNo);
      ChangedCountStep(entries, i, baseMap);
      if key in baseMap {
        updated := updated[i := e.(finalName := baseMap[key] + Suffix(e.funcNo))];
        changed := changed + 1;
      }
    }
    assert entries[..|entries|] == entries;
  }

  /** `applyTemplateCsv` on the page's entries (the table refresh and status line aside). */
  method ApplyTemplateCsv(text: string, entries: seq<Entry>) returns (r: Result<(seq<Entry>, nat), TemplateError>)
    ensures r == ApplyTemplate(text, entries)
  {
    var lines := TemplateLines(text);
    if |lines| < 2 {
      return Err(EmptyTemplate);
    }
    var c := ReadColumns(lines[0]);
    if c.idxType < 0 || c.idxNo < 0 || c.idxBase < 0 {
      return Err(MissingColumns);
    }
    var baseMap := CollectBases(lines[1..], c);
    var updated, changed := ApplyBases(entries, baseMap);
    return Ok((updated, changed));
  }
}
