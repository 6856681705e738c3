/**
 * What the page promises about its two template buttons together: a
 * template downloaded with `buildTemplateCsv` and uploaded unchanged with
 * `applyTemplateCsv` leaves every final name as it was, and the upload
 * reports every entry as updated.
 */
module TemplateRoundTrip {
  import opened Wrappers
  import opened Text
  import opened Convention
  import opened Resolver
  import opened Template
  import opened Document

  // ---------------------------------------------------------------------
  // Line splitting of the uploaded text

  lemma {:induction false} ReplaceCrLfNoCr(s: string)
    requires '\r' !in s
    ensures ReplaceCrLf(s) == s
  {
    if s != "" {
      assert '\r' !in s[1..];
      ReplaceCrLfNoCr(s[1..]);
      assert [s[0]] + s[1..] == s;
    }
  }

  /** Text without carriage returns passes newline normalisation unchanged. */
  lemma NormalizeNoCr(s: string)
    requires '\r' !in s
    ensures NormalizeNewlines(s) == s
  {
    ReplaceCrLfNoCr(s);
    assert CrToLf(s) == s;
  }

  lemma {:induction false} NonEmptyAll(lines: seq<string>)
    requires forall i :: 0 <= i < |lines| ==> lines[i] != ""
    ensures NonEmpty(lines) == lines
  {
    if lines != [] {
      NonEmptyAll(lines[1..]);
      assert [lines[0]] + lines[1..] == lines;
    }
  }

  /** A line the upload keeps as it is: non-empty and without line breaks. */
  predicate LineClean(line: string)
  {
    line != "" && '\n' !in line && '\r' !in line
  }

  /** Joining non-empty lines free of line breaks with "\n" and reading them back gives the lines. */
  lemma LinesOfJoin(lines: seq<string>)
    requires |lines| >= 1
    requires forall i :: 0 <= i < |lines| ==> LineClean(lines[i])
    ensures TemplateLines(JoinWith(lines, '\n')) == lines
  {
    JoinWithChars(lines, '\n', '\r');
    NormalizeNoCr(JoinWith(lines, '\n'));
    SplitJoin(lines, '\n');
    NonEmptyAll(lines);
  }

  // ---------------------------------------------------------------------
  // The lines of a downloaded template

  /** Doubling quotes neither adds nor removes any other character. */
  lemma {:induction false} QuoteChars(s: string, c: char)
    requires c != '"'
    ensures c in Quote(s) <==> c in s
  {
    if s != "" {
      QuoteChars(s[1..], c);
      assert s == [s[0]] + s[1..];
    }
  }

  /** An item line is one non-empty line when the base name holds no line break. */
  lemma ItemLineShape(item: TemplateItem)
    requires '\n' !in item.baseName && '\r' !in item.baseName
    ensures ItemLine(item) != "" && '\n' !in ItemLine(item) && '\r' !in ItemLine(item)
  {
    NoOtherCharInNumber(item.objectNo, '\n');
    NoOtherCharInNumber(item.objectNo, '\r');
    QuoteChars(item.baseName, '\n');
    QuoteChars(item.baseName, '\r');
  }

  lemma TrimAllTrimmed(fields: seq<string>)
    requires forall i :: 0 <= i < |fields| ==> Trimmed(fields[i])
    ensures TrimAll(fields) == fields
  {
    forall i | 0 <= i < |fields|
      ensures TrimAll(fields)[i] == fields[i]
    {
      StripTrimmed(fields[i]);
    }
  }

  /** The header fields are already trimmed. */
  lemma HeaderTrimmed()
    ensures TrimAll(CsvFields(HeaderLine)) == ["object_type", "object_no", "base_name"]
  {
    HeaderFields();
    var fields := ["object_type", "object_no", "base_name"];
    assert Trimmed(fields[0]) && Trimmed(fields[1]) && Trimmed(fields[2]);
    TrimAllTrimmed(fields);
  }

  lemma HeaderIndexes()
    ensures IndexOf(["object_type", "object_no", "base_name"], "object_type") == 0
    ensures IndexOf(["object_type", "object_no", "base_name"], "object_no") == 1
    ensures IndexOf(["object_type", "object_no", "base_name"], "base_name") == 2
  {
    var h := ["object_type", "object_no", "base_name"];
    assert h[0] != h[1] by { assert |h[0]| != |h[1]|; }
    assert h[0] != h[2] by { assert |h[0]| != |h[2]|; }
    assert h[1] != h[2] by { assert h[1][0] != h[2][0]; }
  }

  /** The downloaded header locates the columns at positions 0, 1 and 2. */
  lemma HeaderColumnsOfHeader()
    ensures HeaderColumns(HeaderLine) == Columns(0, 1, 2)
  {
    HeaderTrimmed();
    HeaderIndexes();
  }

  lemma HeaderLineShape()
    ensures HeaderLine != "" && '\n' !in HeaderLine && '\r' !in HeaderLine
  {
    HeaderFields();
  }

  /** The page's key for the object of an item. */
  function ItemKey(item: TemplateItem): (k: (string, int))
    ensures |k.0| == 1
  {
    ([Label(item.objectType)], item.objectNo)
  }

  lemma NumberTrimmed(n: int)
    ensures Trimmed(IntToString(n))
  {
    IntToStringChars(n);
  }

  /** Three trimmed fields in the downloaded column order bind type and number to the base. */
  lemma BindingOfFields(t: string, n: int, b: string)
    requires t != "" && Trimmed(t) && b != "" && Trimmed(b)
    ensures Binding([t, IntToString(n), b], Columns(0, 1, 2)) == Some(((t, n), b))
  {
    var no := IntToString(n);
    var fields := [t, no, b];
    assert Col(fields, 0) == t && Col(fields, 1) == no && Col(fields, 2) == b;
    StripTrimmed(t);
    NumberTrimmed(n);
    StripTrimmed(no);
    StripTrimmed(b);
    ParseIntRoundTrip(n);
    IntToStringChars(n);
    assert JsNumber(Strip(no)) == Some(n);
  }

  /** Each item line, read back, binds the item's key to its base name. */
  lemma ItemBinding(item: TemplateItem)
    requires item.baseName != "" && Trimmed(item.baseName)
    ensures Binding(CsvFields(ItemLine(item)), Columns(0, 1, 2)) == Some((ItemKey(item), item.baseName))
  {
    var t, no := [Label(item.objectType)], IntToString(item.objectNo);
    NoOtherCharInNumber(item.objectNo, ',');
    NoOtherCharInNumber(item.objectNo, '"');
    TemplateLineFields(t, no, item.baseName);
    assert CsvFields(ItemLine(item)) == [t, no, item.baseName];
    BindingOfFields(t, item.objectNo, item.baseName);
  }

  lemma {:induction false} ItemLinesAt(items: seq<TemplateItem>, i: int)
    requires 0 <= i < |items|
    ensures ItemLines(items)[i] == ItemLine(items[i])
  {
    if i < |items| - 1 {
      ItemLinesAt(items[..|items| - 1], i);
    }
  }

  /** A data line that binds a key updates the map of the lines before it. */
  lemma BaseMapLast(lines: seq<string>, c: Columns, key: (string, int), b: string)
    requires lines != [] && Binding(CsvFields(lines[|lines| - 1]), c) == Some((key, b))
    ensures BaseMap(lines, c) == BaseMap(lines[..|lines| - 1], c)[key := b]
  {
  }

  /** The line of the last item updates the map of the items before it. */
  lemma ItemsMapStep(items: seq<TemplateItem>)
    requires items != []
    requires items[|items| - 1].baseName != "" && Trimmed(items[|items| - 1].baseName)
    ensures BaseMap(ItemLines(items), Columns(0, 1, 2))
      == BaseMap(ItemLines(items[..|items| - 1]), Columns(0, 1, 2))[ItemKey(items[|items| - 1]) := items[|items| - 1].baseName]
  {
    var lines := ItemLines(items);
    assert lines[..|lines| - 1] == ItemLines(items[..|items| - 1]);
    ItemBinding(items[|items| - 1]);
    BaseMapLast(lines, Columns(0, 1, 2), ItemKey(items[|items| - 1]), items[|items| - 1].baseName);
  }

  /** The map a list of items stands for: each item's key bound to its base, a later item winning. */
  function ItemMap(items: seq<TemplateItem>): map<(string, int), string>
  {
    if items == [] then map[]
    else ItemMap(items[..|items| - 1])[ItemKey(items[|items| - 1]) := items[|items| - 1].baseName]
  }

  /** Reading the item lines back gives the map of the items. */
  lemma {:induction false} BaseMapOfItems(items: seq<TemplateItem>)
    requires forall i :: 0 <= i < |items| ==> items[i].baseName != "" && Trimmed(items[i].baseName)
    ensures BaseMap(ItemLines(items), Columns(0, 1, 2)) == ItemMap(items)
  {
    if items != [] {
      var init := items[..|items| - 1];
      assert forall i :: 0 <= i < |init| ==> init[i] == items[i];
      BaseMapOfItems(init);
      ItemsMapStep(items);
    }
  }

  /** When items agree with one base per key, their map binds every item's key, and only to that base. */
  lemma {:induction false} ItemMapBases(items: seq<TemplateItem>, bases: map<(string, int), string>)
    requires forall i :: 0 <= i < |items| ==> ItemKey(items[i]) in bases && items[i].baseName == bases[ItemKey(items[i])]
    ensures forall i :: 0 <= i < |items| ==> ItemKey(items[i]) in ItemMap(items)
    ensures forall k :: k in ItemMap(items) ==> k in bases && ItemMap(items)[k] == bases[k]
  {
    if items != [] {
      var init, last := items[..|items| - 1], items[|items| - 1];
      assert forall i :: 0 <= i < |init| ==> init[i] == items[i];
      ItemMapBases(init, bases);
      forall i | 0 <= i < |items|
        ensures ItemKey(items[i]) in ItemMap(items)
      {
        if i < |init| {
          assert ItemKey(init[i]) in ItemMap(init);
        }
      }
    }
  }

  /** When every entry's key is bound, every entry counts as changed. */
  lemma {:induction false} ChangedAll(entries: seq<Entry>, baseMap: map<(string, int), string>)
    requires forall i :: 0 <= i < |entries| ==> KeyOf(entries[i]) in baseMap
    ensures ChangedCount(entries, baseMap) == |entries|
  {
    if entries != [] {
      var init := entries[..|entries| - 1];
      assert forall i :: 0 <= i < |init| ==> init[i] == entries[i];
      ChangedAll(init, baseMap);
    }
  }

  // ---------------------------------------------------------------------
  // Items of entries with consistent base names

  /**
   * The entries' names follow one base per object: each final name is that
   * base followed by " 9 <funcNo>", and the base is a trimmed, non-empty,
   * single-line string.
   */
  ghost predicate Consistent(entries: seq<Entry>, bases: map<(string, int), string>)
  {
    && (forall i :: 0 <= i < |entries| ==> KeyOf(entries[i]) in bases && entries[i].finalName == bases[KeyOf(entries[i])] + Suffix(entries[i].funcNo))
    && (forall k :: k in bases ==> bases[k] != "" && Trimmed(bases[k]) && '\n' !in bases[k] && '\r' !in bases[k])
  }

  /** Every item of consistent entries carries its object's base. */
  lemma ItemsCarryBases(entries: seq<Entry>, bases: map<(string, int), string>)
    requires Consistent(entries, bases)
    ensures forall i :: 0 <= i < |Items(entries)| ==> ItemKey(Items(entries)[i]) in bases && Items(entries)[i].baseName == bases[ItemKey(Items(entries)[i])]
  {
    ItemsSpec(entries);
    var items := Items(entries);
    forall i | 0 <= i < |items|
      ensures ItemKey(items[i]) in bases && items[i].baseName == bases[ItemKey(items[i])]
    {
      assert FromFirst(entries, items[i]);
      var f :| 0 <= f < |entries| && items[i] == ItemOf(entries[f]);
      var e := entries[f];
      assert ItemKey(items[i]) == KeyOf(e);
      ParseBaseNameRoundTrip(bases[KeyOf(e)], e.funcNo);
    }
  }

  /** Every entry's object has an item. */
  lemma EntriesHaveItems(entries: seq<Entry>, i: int)
    requires 0 <= i < |entries|
    ensures exists j :: 0 <= j < |Items(entries)| && ItemKey(Items(entries)[j]) == KeyOf(entries[i])
  {
    ItemsSpec(entries);
    var items := Items(entries);
    assert (entries[i].objectType, entries[i].objectNo) in EntryKeys(entries);
    var j :| 0 <= j < |items| && (items[j].objectType, items[j].objectNo) == (entries[i].objectType, entries[i].objectNo);
    assert ItemKey(items[j]) == KeyOf(entries[i]);
  }

  lemma {:induction false} ItemLinesClean(items: seq<TemplateItem>)
    requires forall i :: 0 <= i < |items| ==> '\n' !in items[i].baseName && '\r' !in items[i].baseName
    ensures forall i :: 0 <= i < |items| ==> LineClean(ItemLines(items)[i])
  {
    forall i | 0 <= i < |items|
      ensures LineClean(ItemLines(items)[i])
    {
      ItemLinesAt(items, i);
      ItemLineShape(items[i]);
    }
  }

  /** The lines of the downloaded template, as the upload reads them. */
  lemma TemplateCsvLines(entries: seq<Entry>, bases: map<(string, int), string>)
    requires Consistent(entries, bases)
    ensures TemplateLines(TemplateCsv(entries)) == [HeaderLine] + ItemLines(Items(entries))
  {
    var items := Items(entries);
    var lines := [HeaderLine] + ItemLines(items);
    ItemsCarryBases(entries, bases);
    forall i | 0 <= i < |items|
      ensures '\n' !in items[i].baseName && '\r' !in items[i].baseName
    {
      assert ItemKey(items[i]) in bases;
    }
    ItemLinesClean(items);
    HeaderLineShape();
    forall i | 0 <= i < |lines|
      ensures LineClean(lines[i])
    {
      if i > 0 {
        assert lines[i] == ItemLines(items)[i - 1];
      }
    }
    LinesOfJoin(lines);
  }

  /** The base map the upload builds from the downloaded template gives every entry its own base back. */
  lemma TemplateBaseMap(entries: seq<Entry>, bases: map<(string, int), string>)
    requires Consistent(entries, bases)
    ensures forall i :: 0 <= i < |entries| ==>
      && KeyOf(entries[i]) in BaseMap(ItemLines(Items(entries)), Columns(0, 1, 2))
      && BaseMap(ItemLines(Items(entries)), Columns(0, 1, 2))[KeyOf(entries[i])] + Suffix(entries[i].funcNo) == entries[i].finalName
  {
    var items := Items(entries);
    ItemsCarryBases(entries, bases);
    forall i | 0 <= i < |items|
      ensures items[i].baseName != "" && Trimmed(items[i].baseName)
    {
      assert ItemKey(items[i]) in bases;
    }
    BaseMapOfItems(items);
    ItemMapBases(items, bases);
    forall i | 0 <= i < |entries|
      ensures KeyOf(entries[i]) in ItemMap(items)
    {
      EntriesHaveItems(entries, i);
    }
  }

  /** Entries whose keys map to their own bases come back unchanged, all counted. */
  lemma AppliedAll(entries: seq<Entry>, baseMap: map<(string, int), string>)
    requires forall i :: 0 <= i < |entries| ==>
      && KeyOf(entries[i]) in baseMap
      && baseMap[KeyOf(entries[i])] + Suffix(entries[i].funcNo) == entries[i].finalName
    ensures seq(|entries|, i requires 0 <= i < |entries| => Applied(entries[i], baseMap)) == entries
    ensures ChangedCount(entries, baseMap) == |entries|
  {
    ChangedAll(entries, baseMap);
    var updated := seq(|entries|, i requires 0 <= i < |entries| => Applied(entries[i], baseMap));
    forall i | 0 <= i < |entries|
      ensures updated[i] == entries[i]
    {
    }
  }

  lemma ItemsNonEmpty(entries: seq<Entry>)
    requires entries != []
    ensures Items(entries) != []
  {
    EntriesHaveItems(entries, 0);
  }

  /**
   * Download then upload: on entries whose names follow one base per object,
   * applying the page's own template changes no name and reports every entry.
   */
  lemma TemplateRoundTrip(entries: seq<Entry>, bases: map<(string, int), string>)
    requires entries != []
    requires Consistent(entries, bases)
    ensures ApplyTemplate(TemplateCsv(entries), entries) == Ok((entries, |entries|))
  {
    var items := Items(entries);
    var lines := TemplateLines(TemplateCsv(entries));
    TemplateCsvLines(entries, bases);
    ItemsNonEmpty(entries);
    HeaderColumnsOfHeader();
    assert lines[0] == HeaderLine && lines[1..] == ItemLines(items);
    TemplateBaseMap(entries, bases);
    AppliedAll(entries, BaseMap(ItemLines(items), Columns(0, 1, 2)));
  }

  /** A template downloaded from an empty table has no data line, and uploading it is refused. */
  lemma EmptyTemplateRejected(entries: seq<Entry>)
    ensures ApplyTemplate(TemplateCsv([]), entries) == Err(EmptyTemplate)
  {
    LinesOfJoin([HeaderLine]);
  }

  // ---------------------------------------------------------------------
  // Freshly generated names

  /** The base of a generated name: its label and number. */
  function FreshBase(k: (string, int)): string
  {
    k.0 + IntToString(k.1)
  }

  lemma FreshBaseShape(t: ObjectType, n: int)
    ensures var b := FreshBase(([Label(t)], n)); b != "" && Trimmed(b) && '\n' !in b && '\r' !in b
  {
    NumberTrimmed(n);
    NoOtherCharInNumber(n, '\n');
    NoOtherCharInNumber(n, '\r');
    IntToStringChars(n);
  }

  /** The keys of the entries. */
  function FreshKeys(entries: seq<Entry>): set<(string, int)>
  {
    set i | 0 <= i < |entries| :: KeyOf(entries[i])
  }

  /** Entries whose final names are still the generated ones are consistent. */
  lemma FreshConsistent(entries: seq<Entry>)
    requires forall i :: 0 <= i < |entries| ==> entries[i].finalName == BuildName(entries[i].objectType, entries[i].objectNo, entries[i].funcNo)
    ensures Consistent(entries, map k | k in FreshKeys(entries) :: FreshBase(k))
  {
    var bases := map k | k in FreshKeys(entries) :: FreshBase(k);
    forall k | k in bases
      ensures bases[k] != "" && Trimmed(bases[k]) && '\n' !in bases[k] && '\r' !in bases[k]
    {
      var i :| 0 <= i < |entries| && k == KeyOf(entries[i]);
      FreshBaseShape(entries[i].objectType, entries[i].objectNo);
    }
    forall i | 0 <= i < |entries|
      ensures KeyOf(entries[i]) in bases
    {
    }
  }

  /**
   * Right after an XML file is read, the page's template uploaded unchanged
   * leaves all names as generated.
   */
  lemma GeneratedRoundTrip(doc: seq<Element>)
    requires Entries(doc) != []
    ensures ApplyTemplate(TemplateCsv(Entries(doc)), Entries(doc)) == Ok((Entries(doc), |Entries(doc)|))
  {
    var entries := Entries(doc);
    forall i | 0 <= i < |entries|
      ensures entries[i].finalName == BuildName(entries[i].objectType, entries[i].objectNo, entries[i].funcNo)
    {
      EntryFacts(doc, i);
    }
    FreshConsistent(entries);
    TemplateRoundTrip(entries, map k | k in FreshKeys(entries) :: FreshBase(k));
  }
}
