# KNX group-address rename tools, modelled in Dafny

Two tools re-label the group addresses of an ETS group-address export for
device #9 of a MaiLian installation. Both name objects by the same
convention: `"<type><no> 9 <funcNo>"`. The type is 灯 (light) or 组 (group).
The function number comes from a table keyed by the middle level of the
address.

- **Web tool** (`knx_web_tool.py`). It reads an export and keeps the
  GroupAddress elements that have a usable address. It records the largest
  sub for each main group. It then lays out the mains in ascending order:
  each main gets modules of 80 slots, 64 lights and then 16 groups. Its
  light, group and module offsets are the running sums over the smaller
  mains. Each candidate becomes an entry whose object number is global
  across the installation. The tool can also:
  - merge user overrides into the default name map;
  - rename the document;
  - emit a 14-column worksheet.

  Its browser page, written in JavaScript, builds and applies a CSV
  template of base names.
- **Converter** (`knx_mylink_converter.py`). This older command-line tool
  numbers objects inside their 80-slot block: lights 1..64 and groups
  1..16. Every main has exactly two blocks. It converts only mains 1..4
  with subs 1..160. It renames in place and writes a 12-column mapping
  sheet.

The two numbering schemes are kept apart. Layout, Identity and Resolver
belong to the web tool; MyLink belongs to the converter. Code that is
textually the same in both files is modelled once: `parse_address`,
`excel_col`, `cell_ref`, `inline_cell` and the function table.

An XML document is modelled as the sequence of its elements in document
order. Each element has a qualified tag and an attribute map
(`Document.Element`). Renaming maps that sequence element by element.
Decimal rendering and `int()` / `Number()` parsing are modelled
explicitly (`Text`). Python integers are unbounded, as Dafny's are; the
JavaScript page's numbers are modelled as unbounded integers too (see
`Template.JsNumber` under "Left out").

Modules:
- `Text`: decimal rendering and parsing, split/join, strip.
- `GroupAddress`: `parse_address`.
- `Convention`: function table, names and their parser.
- `Document`: elements.
- `Rename`: `apply_names_to_xml`.
- `Layout`: `build_layout`.
- `Identity`: the classification arithmetic of the web tool.
- `Resolver`: `generate_entries_from_xml`.
- `Export`: the name maps.
- `Worksheet`: column letters, cells, rows, dimension.
- `WebSheet` and `MyLink`: the two sheets and the converter.
- `Template`: parseBaseName, buildTemplateCsv, parseCsvLine,
  applyTemplateCsv.
- `TemplateRoundTrip`: applying the page's own template restores every
  name.

## Model

| member | source | states |
|---|---|---|
| Text.IntToStringDigits | knx_web_tool.py:283-294 | `str(n)` of a non-negative integer is all decimal digits |
| Text.ParseIntRoundTrip | knx_web_tool.py:95 | `int(str(n)) == n` for every integer, negative ones included |
| Text.IntToStringInjective | knx_web_tool.py:283-294 | distinct integers render to distinct decimal texts |
| Text.NoOtherCharInNumber | knx_web_tool.py:283-294 | `str(n)` holds no character other than digits and "-": no separator, quote or line break |
| Text.ReadsBack | knx_web_tool.py:283-294 | a cell holding `str(n)` parses back to n |
| Text.SplitLength | knx_web_tool.py:92 | `split` yields one more part than there are separators |
| Text.SplitJoin | knx_web_tool.py:92 | splitting a separator-free join gives back the parts |
| Text.SplitCons | knx_web_tool.py:92 | a separator-free prefix followed by the separator is the first part |
| Text.TrimLeftDropsSpaces | knx_web_tool.py:528 | everything `strip` drops on the left is whitespace |
| Text.TrimRightDropsSpaces | knx_web_tool.py:528 | everything `strip` drops on the right is whitespace |
| Text.StripSpec | knx_web_tool.py:528-530 | `strip` returns a contiguous slice with no edge whitespace; it is empty iff the input is all whitespace |
| Text.StripTrimmed | knx_web_tool.py:528-530 | `strip` leaves an already trimmed string unchanged |
| Text.ParseInt | knx_web_tool.py:95 | `int(s)`: an optional sign and decimal digits, else failure; its meaning is `ParseIntRoundTrip` |
| Text.Split | knx_web_tool.py:92 | `str.split(sep)`: the parts between separators; its meaning is `SplitLength`, `SplitJoin` and `SplitCons` |
| Text.Strip | knx_web_tool.py:528 | `str.strip()`; its meaning is `StripSpec` and `StripTrimmed` |
| GroupAddress.ParseAddress | knx_web_tool.py:91-95 | succeeds iff `split("/")` gives 3 segments that all parse; the wrong segment count is its own error; the fields are the segments' values in order |
| GroupAddress.ParseFormatRoundTrip | knx_web_tool.py:91-95 | parsing `"main/middle/sub"` rendered from any three integers returns them |
| GroupAddress.WrongSlashCountRejected | knx_mylink_converter.py:55-58 | any text without exactly two "/" is rejected with the segment-count error |
| Convention.FunctionTableShape | knx_web_tool.py:39-46 | middle levels 1..6 map to function numbers 0..5, all distinct |
| Convention.BuildName | knx_mylink_converter.py:71-72 | `"<label><no> 9 <funcNo>"`; its meaning is `ParseBuildNameRoundTrip` and `BuildNameInjective` |
| Convention.LabelInjective | knx_web_tool.py:163-171 | the labels 灯 and 组 tell the object types apart |
| Convention.ParseBuildNameRoundTrip | knx_web_tool.py:178-179 | `"<type><no> 9 <funcNo>"` parses back to its type, number and function |
| Convention.BuildNameInjective | knx_mylink_converter.py:71-72 | distinct (type, number, function) triples give distinct names |
| Convention.NameExample | knx_mylink_converter.py:71-72 | light 1, function 3 is named "灯1 9 3" |
| Document.Get | knx_web_tool.py:135 | `ga.get(key, default)` is the attribute when present, else the default |
| Document.SetSpec | knx_mylink_converter.py:109 | `ga.set` keeps the tag, sets that attribute, adds exactly that key to the key set and leaves every other attribute's value unchanged |
| Rename.ApplyNames | knx_web_tool.py:222-234 | the loop returns, element by element, the renamed document |
| Rename.ApplyNamesToXml | knx_web_tool.py:222-234 | an unparsable document is the parser's error; otherwise every element is renamed in order |
| Rename.Renamed | knx_web_tool.py:227-230 | one loop iteration on one element; its meaning is `RenamedSpec` |
| Rename.RenamedSpec | knx_web_tool.py:226-230 | Name is replaced exactly on GroupAddress elements whose address maps to a non-empty name; the key set gains only Name; every other attribute keeps its value and every other element is untouched |
| Rename.RenamedIdempotent | knx_web_tool.py:226-230 | applying the same names twice equals applying them once |
| Layout.SlotArithmetic | knx_web_tool.py:106-109 | modules = max(1, ceil(max_sub/80)); light + group slots = max_sub; lights <= 64·modules, groups <= 16·modules |
| Layout.ModuleCount | knx_web_tool.py:106 | `max(1, ceil(max_sub/80))`; its meaning is `SlotArithmetic` |
| Layout.LightSlots | knx_web_tool.py:107-108 | lights counted for a main; its meaning is `SlotArithmetic` |
| Layout.GroupSlots | knx_web_tool.py:107-109 | groups counted for a main; its meaning is `SlotArithmetic` |
| Layout.SortedKeys | knx_web_tool.py:104 | `sorted(main_to_max_sub)` holds exactly the mains |
| Layout.SortedKeysIncreasing | knx_web_tool.py:104 | the mains are visited in strictly ascending order |
| Layout.IncreasingUnique | knx_web_tool.py:104 | there is only one ascending order of a set of mains, so the result does not depend on input order |
| Layout.BelowMembers | knx_web_tool.py:104-124 | the mains before m are exactly the mains smaller than m, ascending |
| Layout.LayoutSpec | knx_web_tool.py:98-126 | there is one layout per main and no other |
| Layout.LayoutStep | knx_web_tool.py:104-124 | the i-th main's layout records the running offsets before they are advanced |
| Layout.LayoutsOverAll | knx_web_tool.py:98-126 | filling the dict main by main gives the layout of every main |
| Layout.RunAll | knx_web_tool.py:98-126 | the loop as a fold over the sorted mains yields the layout map |
| Layout.BuildLayout | knx_web_tool.py:98-126 | the imperative loop with its three running offsets returns exactly the layout map |
| Layout.TotalMonotone | knx_web_tool.py:122-124 | running sums of non-negative slot counts never decrease |
| Layout.OffsetsOrdered | knx_web_tool.py:104-124 | a smaller main's range ends no later than a larger main's offset, for lights, groups and modules |
| Layout.OffsetsAtPosition | knx_web_tool.py:104-124 | each offset is the sum of slots (modules) over strictly smaller mains, the main's own excluded |
| Layout.SmallestMainStartsAtZero | knx_web_tool.py:100-102 | the smallest main starts at offset 0 for lights, groups and modules |
| Layout.TwoMainExample | knx_web_tool.py:98-126 | mains {1: 80, 2: 10} get (1 module, 64 lights, 16 groups, offsets 0) and (1, 10, 0, offsets 64/16/1) |
| Identity.ModulePosition | knx_web_tool.py:159-161 | module_in_main >= 1, local in 1..80, and sub = (module_in_main-1)·80 + local |
| Identity.Classify | knx_web_tool.py:159-176 | one sub's object type, numbers and modules; its meaning is `ClassifyInverse`, `ClassifyInRange`, `IdentityUnique` and `ObjectNoMonotone` |
| Identity.ClassifyInverse | knx_web_tool.py:163-176 | the sub can be recovered from the layout, object type and object number |
| Identity.ClassifyInRange | knx_web_tool.py:163-176 | a light number lies in [light_offset+1, light_offset+light_slots], a group number in the group range, the global module in the main's module range |
| Identity.SlotsCover | knx_web_tool.py:106-109 | every sub up to max_sub fits in the slots and modules counted for it |
| Identity.IdentityUnique | knx_web_tool.py:159-176 | two (main, sub) pairs with the same object type and number are the same pair |
| Identity.ObjectNoWithinMain | knx_web_tool.py:159-176 | within one main, a larger sub of the same object type gets a larger object number |
| Identity.ObjectNoMonotone | knx_web_tool.py:159-176 | for one object type, object numbers increase with (main, sub) in lexicographic order |
| Identity.SingleModuleExample | knx_web_tool.py:159-176 | subs 1, 64, 65, 80 of a single main give 灯1, 灯64, 组1, 组16 |
| Resolver.Discover | knx_web_tool.py:134-150 | the discovery loop returns the candidates and the max-sub map |
| Resolver.CandidatesSpec | knx_web_tool.py:134-147 | membership both ways: every candidate is an eligible element of the document, and every eligible element yields a candidate |
| Resolver.CandidateIndexesAt | knx_web_tool.py:134-147 | one recorded position per candidate; candidate j is what discovery makes of the element at position j |
| Resolver.CandidateIndexesIncreasing | knx_web_tool.py:134-147 | the recorded positions lie in the document and strictly increase |
| Resolver.CandidateIndexesCover | knx_web_tool.py:134-147 | every position holding an eligible element is recorded |
| Resolver.CandidatesInOrder | knx_web_tool.py:134-147 | candidates are exactly the eligible elements, one per eligible position, in document order |
| Resolver.CandidateOfSpec | knx_web_tool.py:135-145 | an element is a candidate iff its address is non-empty and parses, its middle is in the table and its sub >= 1 |
| Resolver.MaxSubsSpec | knx_web_tool.py:148-150 | the map's keys are the candidates' mains; each value is the largest sub of that main and is attained |
| Resolver.MaxSubsPositive | knx_web_tool.py:144-150 | every recorded max sub is at least 1 |
| Resolver.SortByKey | knx_web_tool.py:155 | the candidates sorted by (main, middle, sub): sorted, and a permutation |
| Resolver.InsertSorted | knx_web_tool.py:155 | inserting into a sorted list keeps it sorted |
| Resolver.CandidatesEligible | knx_web_tool.py:152-156 | every candidate's main has a layout and its sub is within its main's max |
| Resolver.EntriesOfAt | knx_web_tool.py:155-196 | entry k is built from the k-th sorted candidate and its main's layout |
| Resolver.MakeEntry | knx_web_tool.py:156-196 | one loop iteration builds that candidate's entry |
| Resolver.MakeEntries | knx_web_tool.py:155-196 | the second loop appends one entry per sorted candidate |
| Resolver.GenerateEntries | knx_web_tool.py:129-196 | the whole pass returns the entries of the document |
| Resolver.GenerateEntriesFromXml | knx_web_tool.py:129-196 | a parse error is passed to the caller (caught at knx_web_tool.py:491); a parsed document yields its entries |
| Resolver.EntryAt | knx_web_tool.py:155-196 | entry i belongs to the i-th sorted candidate, which has a layout |
| Resolver.EntryKey | knx_web_tool.py:182-188 | an entry carries its element's address and its main, middle and sub |
| Resolver.EntriesCount | knx_web_tool.py:155-196 | there is one entry per candidate |
| Resolver.EntriesSorted | knx_web_tool.py:155 | entries come out ordered by (main, middle, sub) |
| Resolver.EntriesCoverCandidates | knx_web_tool.py:155-196 | every candidate has an entry with its address and key |
| Resolver.EntryFacts | knx_web_tool.py:157-196 | each entry's address parses to its key; function from the table; generated name is the convention and parses back; final name = generated name; module_global = module_offset + module_in_main; the sub is recoverable |
| Resolver.EntryOfNamesDistinct | knx_web_tool.py:159-179 | two eligible candidates with different keys get different generated names |
| Resolver.EntryNamesDistinct | knx_web_tool.py:155-196 | entries with different (main, middle, sub) have different generated names |
| Export.DefaultNamesSpec | knx_web_tool.py:395-396 | the default map's keys are the entries' addresses; each maps to the generated name of the last entry with it |
| Export.DefaultNames | knx_web_tool.py:395-396 | address to generated name, later entries winning; its meaning is `DefaultNamesSpec` |
| Export.DefaultNamesNonEmpty | knx_web_tool.py:395-396 | no default name is empty |
| Export.OverlaidAcceptKeys | knx_web_tool.py:528-530 | accepting one override keeps the key invariant of the merge loop |
| Export.OverlaidAcceptValues | knx_web_tool.py:528-530 | accepting one override keeps the value invariant of the merge loop |
| Export.OverlaidReject | knx_web_tool.py:524-529 | skipping a non-string or blank override keeps the invariant |
| Export.OverlaidOnAll | knx_web_tool.py:522-530 | after every member is visited, the names are the overlay |
| Export.MergeNames | knx_web_tool.py:520-530 | the merge loop returns the resolved names |
| Export.ResolvedNamesSpec | knx_web_tool.py:520-530 | the keys are the defaults plus the accepted overrides; an accepted override is stored stripped, non-empty and trimmed; every other address keeps its default |
| Export.ResolvedNamesNonEmpty | knx_web_tool.py:520-530 | every resolved name of a parsed document is non-empty |
| Export.ResolveExport | knx_web_tool.py:510-532 | an empty session id and an unknown session are errors; otherwise the session's entries and the resolved names |
| Worksheet.ColLetters | knx_web_tool.py:237-242 | only A..Z, and non-empty exactly for columns >= 1 |
| Worksheet.ExcelCol | knx_web_tool.py:237-242 | the divmod loop returns the column's letters |
| Worksheet.ColNumberOfLetters | knx_web_tool.py:237-242 | the letters read back as bijective base 26 give the column |
| Worksheet.ColLettersOfNumber | knx_web_tool.py:237-242 | every letter string is the letters of its number, so the mapping is onto |
| Worksheet.ColLettersInjective | knx_web_tool.py:237-242 | distinct columns get distinct letters |
| Worksheet.ColLettersExamples | knx_mylink_converter.py:134-139 | 1→A, 12→L, 14→N, 26→Z, 27→AA |
| Worksheet.CellRef | knx_web_tool.py:245-246 | column letters followed by the row number; read back by `InlineCellRoundTrip` |
| Worksheet.InlineCell | knx_web_tool.py:249-255 | an inline-string cell with escaped text; its meaning is `InlineCellRoundTrip` |
| Worksheet.Escape | knx_web_tool.py:253 | escaped text holds no angle brackets and is never shorter |
| Worksheet.UnescapeCons | knx_web_tool.py:253 | each escaped character reads back as itself |
| Worksheet.EscapeRoundTrip | knx_web_tool.py:253 | unescaping the escaped text gives back the text |
| Worksheet.EscapePlain | knx_web_tool.py:253 | text without &, < and > is left as it is |
| Worksheet.InlineCellRoundTrip | knx_web_tool.py:249-255 | an inline cell at (row, col) reads back as its value |
| Worksheet.CellListValues | knx_web_tool.py:300 | the k-th cell of a row is at column k+1 and holds the k-th value |
| Worksheet.SheetRows | knx_web_tool.py:298-301 | the row loop returns row i as `<row r="i+1">` with its cells |
| Worksheet.SheetDataRow | knx_web_tool.py:298-311 | row r of the sheet data is numbered r+1 and its cell k holds value k |
| Worksheet.DimensionExamples | knx_web_tool.py:303 | with 14 columns the dimension is "A1:N<rows>"; with 12 it is "A1:L<rows>" |
| Worksheet.RenderSheet | knx_web_tool.py:298-311 | the dimension and the sheet data of the given rows |
| WebSheet.BuildRows | knx_web_tool.py:276-295 | a header row, then one row per entry in order |
| WebSheet.RowFinalName | knx_web_tool.py:278-295 | 14 cells; address, generated name, original name, label and function name verbatim; the final name is the override when the address has one, the generated name otherwise |
| WebSheet.RowNumbers | knx_web_tool.py:279-295 | the numeric cells read back as main, middle, sub, module_in_main, module_global, object_no, 9 and func_no |
| WebSheet.RowsOf | knx_web_tool.py:276-295 | the rows are determined by header and per-entry rows |
| WebSheet.BuildSheet | knx_web_tool.py:258-313 | dimension "A1:N<entries+1>" and the sheet data of the header plus entry rows |
| MyLink.ClassifyObject | knx_mylink_converter.py:62-68 | an error iff sub < 1; otherwise block >= 1, lights 1..64 and groups 1..16, and sub = (block-1)·80 + no (+64 for groups) |
| MyLink.ClassifyObjectBlock | knx_mylink_converter.py:76-82 | converted subs 1..160 fall in block 1 or 2 |
| MyLink.ShouldConvert | knx_mylink_converter.py:76-82 | mains 1..4, a middle of the table and subs 1..160; used by `ConvertOneSpec` and `ClassifyObjectBlock` |
| MyLink.ConvertOne | knx_mylink_converter.py:92-127 | one loop iteration on one element; its meaning is `ConvertOneSpec` |
| MyLink.ConvertOneSpec | knx_mylink_converter.py:92-131 | converted iff the address is non-empty, parses and passes `should_convert`; the row's name, function, block 1..2, global module (main-1)·2+block in 1..8 and device; only Name changes, and only there: the key set gains only Name and every other attribute keeps its value |
| MyLink.ConvertedDocAt | knx_mylink_converter.py:92-110 | element k of the output is element k after the loop body |
| MyLink.ConvertedRowsStep | knx_mylink_converter.py:112-128 | a converted element appends its row; a skipped one appends nothing |
| MyLink.ConvertedIndexesAt | knx_mylink_converter.py:92-128 | one recorded position per row; row j is what the loop makes of the element at position j |
| MyLink.ConvertedIndexesIncreasing | knx_mylink_converter.py:92-128 | the recorded positions lie in the document and strictly increase |
| MyLink.ConvertedIndexesCover | knx_mylink_converter.py:92-128 | every position holding a converted element is recorded |
| MyLink.RowsInOrder | knx_mylink_converter.py:92-128 | the rows are exactly the rows of the converted elements, one per converted position, in document order |
| MyLink.ConvertedRowsSpec | knx_mylink_converter.py:112-128 | every row comes from a converted element of the document |
| MyLink.Convert | knx_mylink_converter.py:85-131 | the loop renames element by element, collects the rows in document order and returns converted == len(rows) |
| MyLink.RowIdentity | knx_mylink_converter.py:104-108 | name plus global module identify main, middle and sub |
| MyLink.ModuleGlobalDistinct | knx_mylink_converter.py:106 | distinct (main, module_in_main) pairs with blocks 1..2 give distinct global modules |
| MyLink.FirstLightRow | knx_mylink_converter.py:92-110 | sub 1 of middle 1 in mains 1..4 is "灯1 9 3" in global module (main-1)·2+1 |
| MyLink.NamesRepeatAcrossMains | knx_mylink_converter.py:62-72 | the same name recurs in different mains (modules 1 and 3) |
| MyLink.SheetRowsOfAt | knx_mylink_converter.py:171-188 | sheet row i+1 is the cells of row i |
| MyLink.CellsSpec | knx_mylink_converter.py:156-187 | 12 cells, one per header; new name, address, label and function name verbatim |
| MyLink.CellsAddressNumbers | knx_mylink_converter.py:177-180 | the main, middle, sub and ModuleGlobal cells read back as the row's fields |
| MyLink.CellsObjectNumbers | knx_mylink_converter.py:181-185 | the module-in-main, object number, device and function number cells read back as the row's fields |
| MyLink.WriteSheet | knx_mylink_converter.py:155-205 | dimension "A1:L<rows+1>" and the sheet data of header plus rows |
| Template.ParseBaseName | knx_web_tool.py:779-785 | the suffix " 9 <funcNo>" is removed exactly when the name ends with it |
| Template.ParseBaseNameRoundTrip | knx_web_tool.py:779-785 | stripping the suffix from base + suffix gives base |
| Template.ParseCsvLine | knx_web_tool.py:928-950 | the character loop returns the CSV fields of the line |
| Template.CsvFields | knx_web_tool.py:928-950 | the fields of a CSV line; its meaning is `CsvPlain`, `CsvQuoted`, `TemplateLineFields` and `PlainLineFields` |
| Template.CsvPlain | knx_web_tool.py:944-946 | characters other than quote and comma are copied into the current field |
| Template.CsvQuoted | knx_web_tool.py:934-940 | inside quotes, `""` reads as one quote, so a quoted text reads back as itself |
| Template.TemplateLineFields | knx_web_tool.py:922-923 | a template line splits into type, number and base; commas and quotes in the base survive |
| Template.PlainLineFields | knx_web_tool.py:941-948 | three quote- and comma-free fields joined by commas split back |
| Template.HeaderFields | knx_web_tool.py:920 | the header line splits into its three column names |
| Template.UniqueItems | knx_web_tool.py:909-919 | the first-seen-wins loop returns the template items |
| Template.ItemsSpec | knx_web_tool.py:909-919 | one item per distinct (type, number); each comes from the first entry with that key |
| Template.BuildTemplateCsv | knx_web_tool.py:908-926 | the loop returns the template text |
| Template.IndexOf | knx_web_tool.py:958-960 | `indexOf` is -1 iff absent; otherwise the first position holding the name |
| Template.ReadColumns | knx_web_tool.py:957-960 | the header step returns the trimmed header's three column positions |
| Template.CollectBases | knx_web_tool.py:966-975 | the data-line loop builds the base map, later lines winning |
| Template.ApplyBases | knx_web_tool.py:977-984 | each entry with a base gets "<base> 9 <funcNo>"; changed counts them |
| Template.ApplyTemplateCsv | knx_web_tool.py:952-986 | the whole upload: under 2 lines and missing columns are errors, otherwise the updated entries and count |
| Template.ApplyTemplate | knx_web_tool.py:952-986 | the upload as a function; its meaning is `TemplateRoundTrip` and `EmptyTemplateRejected` |
| TemplateRoundTrip.LinesOfJoin | knx_web_tool.py:953 | joining clean lines with "\n" and reading them back gives the lines |
| TemplateRoundTrip.HeaderColumnsOfHeader | knx_web_tool.py:957-960 | the page's own header yields columns 0, 1, 2 |
| TemplateRoundTrip.ItemBinding | knx_web_tool.py:966-974 | a template line binds its (type, number) key to its base |
| TemplateRoundTrip.BaseMapOfItems | knx_web_tool.py:966-975 | the base map read from the template lines is the items' map |
| TemplateRoundTrip.TemplateCsvLines | knx_web_tool.py:908-926 | the template text reads back as header plus item lines |
| TemplateRoundTrip.TemplateBaseMap | knx_web_tool.py:952-975 | the base map gives every entry the base its final name was built from |
| TemplateRoundTrip.AppliedAll | knx_web_tool.py:977-984 | applying those bases rebuilds every final name, and all entries count as changed |
| TemplateRoundTrip.TemplateRoundTrip | knx_web_tool.py:908-986 | exporting the template and applying it unchanged leaves every name as it was |
| TemplateRoundTrip.EmptyTemplateRejected | knx_web_tool.py:953-956 | the template of no entries is only a header, so applying it fails with the empty-template error |
| TemplateRoundTrip.FreshConsistent | knx_web_tool.py:178-185 | freshly generated names satisfy the round-trip condition |
| TemplateRoundTrip.GeneratedRoundTrip | knx_web_tool.py:129-196 | for a freshly parsed document, the template round trip restores every name |

## Left out

- Parsing and serialising XML, and the namespace search. Documents are
  sequences of elements. The parser's outcome is a parameter: either the
  elements or `XmlError.ParseError`, which `GenerateEntriesFromXml` and
  `ApplyNamesToXml` pass on.
- The HTTP server, sessions, multipart and JSON decoding, browser launch
  and argparse. `ResolveExport` takes the session map and the decoded
  `names` value as parameters. Keys of the names object are always strings
  after JSON decoding, so only the value checks are modelled.
- The summary dictionary of `generate_entries_from_xml` (counts and the
  per-main list). It is display data only.
- Zip packaging and the constant package parts (content types, rels,
  workbook, core and app properties). The model stops at the dimension
  and sheet data of the worksheet part.
- The browser UI: rendering, filtering, paging, `escapeHtml`,
  `buildNamesMap`, `setStatus`, downloads and the "changed" status text.
- Text.ParseInt: accepts an optional sign and ASCII digits only. Python
  `int()` also accepts surrounding whitespace, underscores and non-ASCII
  digits.
- Template.JsNumber: accepts "" (as 0) and decimal integers only. JS
  `Number()` also accepts hexadecimal, exponent and fractional forms.
- Template.JsNumber: yields an unbounded integer. JavaScript numbers are
  doubles: `Number()` rounds integers above 2^53, and `${n}` switches to
  exponent form from 1e21 upward, so keys and names of such numbers differ.
- Template.KeyOf: the page's string key `${t}|${n}` is modelled as the
  pair (t, n). The number never contains "|", so the two are equivalent.
- Template.ApplyBases: JavaScript mutates `allEntries` in place; the model
  returns the updated sequence.
- Resolver.SortByKey: proved sorted and a permutation. Python's sort is
  also stable; the model's insertion sort keeps equal keys in order, but
  that is not stated as a lemma.
- Worksheet.Escape: `saxutils.escape` with no extra entities replaces &,
  < and > only, and the model follows that code. Double and single quotes
  are not escaped.
- TemplateRoundTrip.TemplateRoundTrip: holds when every final name is
  "<base> 9 <funcNo>" for one base per object, and that base is non-empty,
  trimmed and free of line breaks. Names edited in other ways are not
  covered; `GeneratedRoundTrip` covers the freshly generated ones.
- Layout.Total: the sum skips a main missing from the map instead of
  requiring its presence; every call passes mains of the map.
- Text.Strip: strips space, \t, \n, \r, \v and \f only. Python
  `str.strip()` also strips \x1c-\x1f, \x85 and Unicode spaces; JS `trim()`
  also strips \u00a0, \ufeff and Unicode spaces.
