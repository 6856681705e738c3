/**
 * `generate_entries_from_xml` (web tool): the discovery pass over the
 * GroupAddress elements, the batch layout, the ordering by address and one
 * entry per candidate.
 */
module Resolver {
  import opened Wrappers
  import opened Text
  import opened GroupAddress
  import opened Convention
  import opened Document
  import opened Layout
  import opened Identity

  /** An element that passed discovery, with its parsed address. */
  datatype Candidate = Candidate(main: int, middle: int, sub: int, element: Element)

  /**
   * Discovery skips elements with an empty or unparsable Address, a middle
   * level outside the function table, or a sub below 1.
   */
  function CandidateOf(e: Element): Option<Candidate>
  {
    var address := Get(e, "Address", "");
    if !IsGroupAddress(e) || address == "" then None
    else match ParseAddress(address)
      case Err(_) => None
      case Ok(a) =>
        if a.middle !in Functions || a.sub < 1 then None
        else Some(Candidate(a.main, a.middle, a.sub, e))
  }

  /** The candidates, in document order. */
  function Candidates(doc: seq<Element>): seq<Candidate>
  {
    if doc == [] then []
    else
      var rest := Candidates(doc[..|doc| - 1]);
      match CandidateOf(doc[|doc| - 1])
      case None => rest
      case Some(c) => rest + [c]
  }

  /** The highest sub seen for each main, updated candidate by candidate. */
  function MaxSubs(cs: seq<Candidate>): map<int, int>
  {
    if cs == [] then map[]
    else
      var m := MaxSubs(cs[..|cs| - 1]);
      var c := cs[|cs| - 1];
      if c.main !in m || c.sub > m[c.main] then m[c.main := c.sub] else m
  }

  /** The first loop of `generate_entries_from_xml`. */
  method Discover(doc: seq<Element>) returns (candidates: seq<Candidate>, mainToMaxSub: map<int, int>)
    ensures candidates == Candidates(doc)
    ensures mainToMaxSub == MaxSubs(candidates)
  {
    candidates, mainToMaxSub := [], map[];
    for i := 0 to |doc|
      invariant candidates == Candidates(doc[..i])
      invariant mainToMaxSub == MaxSubs(candidates)
    {
      assert doc[..i + 1][..i] == doc[..i];
      match CandidateOf(doc[i])
      case None =>
      case Some(c) =>
        assert (candidates + [c])[..|candidates|] == candidates;
        candidates := candidates + [c];
        if c.main !in mainToMaxSub || c.sub > mainToMaxSub[c.main] {
          mainToMaxSub := mainToMaxSub[c.main := c.sub];
        }
    }
    assert doc[..|doc|] == doc;
  }

  /**
   * Every candidate comes from a GroupAddress element of the document whose
   * non-empty Address parses to the candidate's main/middle/sub, with a
   * middle in the function table and a sub of at least 1; and every such
   * element is a candidate.
   */
  lemma {:induction false} CandidatesSpec(doc: seq<Element>)
    ensures forall c :: c in Candidates(doc) ==>
      && c.element in doc
      && CandidateOf(c.element) == Some(c)
    ensures forall e :: e in doc && CandidateOf(e).Some? ==> CandidateOf(e).value in Candidates(doc)
  {
    if doc != [] {
      CandidatesSpec(doc[..|doc| - 1]);
      assert doc == doc[..|doc| - 1] + [doc[|doc| - 1]];
    }
  }

  /** The document positions of the candidates, in document order. */
  function CandidateIndexes(doc: seq<Element>): seq<int>
  {
    if doc == [] then []
    else
      var rest := CandidateIndexes(doc[..|doc| - 1]);
      if CandidateOf(doc[|doc| - 1]).Some? then rest + [|doc| - 1] else rest
  }

  /** Candidate j is what discovery makes of the element at the j-th recorded position. */
  lemma {:induction false} CandidateIndexesAt(doc: seq<Element>)
    ensures |CandidateIndexes(doc)| == |Candidates(doc)|
    ensures forall j :: 0 <= j < |CandidateIndexes(doc)| ==>
      && 0 <= CandidateIndexes(doc)[j] < |doc|
      && CandidateOf(doc[CandidateIndexes(doc)[j]]) == Some(Candidates(doc)[j])
  {
    if doc != [] {
      var init := doc[..|doc| - 1];
      CandidateIndexesAt(init);
      forall j | 0 <= j < |CandidateIndexes(init)|
        ensures doc[CandidateIndexes(init)[j]] == init[CandidateIndexes(init)[j]]
      {
      }
    }
  }

  /** The recorded positions strictly increase. */
  lemma {:induction false} CandidateIndexesIncreasing(doc: seq<Element>)
    ensures forall j :: 0 <= j < |CandidateIndexes(doc)| ==> 0 <= CandidateIndexes(doc)[j] < |doc|
    ensures forall j, k :: 0 <= j < k < |CandidateIndexes(doc)| ==> CandidateIndexes(doc)[j] < CandidateIndexes(doc)[k]
  {
    if doc != [] {
      CandidateIndexesIncreasing(doc[..|doc| - 1]);
    }
  }

  /** Every position holding an eligible element is recorded. */
  lemma {:induction false} CandidateIndexesCover(doc: seq<Element>)
    ensures forall i :: 0 <= i < |doc| && CandidateOf(doc[i]).Some? ==> i in CandidateIndexes(doc)
  {
    if doc != [] {
      var init := doc[..|doc| - 1];
      CandidateIndexesCover(init);
      assert forall i :: 0 <= i < |init| ==> init[i] == doc[i];
    }
  }

  /**
   * Discovery keeps order and multiplicity: there is one candidate per
   * eligible position of the document, in increasing position order, so an
   * element that occurs twice yields two candidates.
   */
  lemma CandidatesInOrder(doc: seq<Element>)
    ensures |CandidateIndexes(doc)| == |Candidates(doc)|
    ensures forall j :: 0 <= j < |Candidates(doc)| ==>
      && 0 <= CandidateIndexes(doc)[j] < |doc|
      && CandidateOf(doc[CandidateIndexes(doc)[j]]) == Some(Candidates(doc)[j])
    ensures forall j, k :: 0 <= j < k < |CandidateIndexes(doc)| ==> CandidateIndexes(doc)[j] < CandidateIndexes(doc)[k]
    ensures forall i :: 0 <= i < |doc| && CandidateOf(doc[i]).Some? ==> i in CandidateIndexes(doc)
  {
    CandidateIndexesAt(doc);
    CandidateIndexesIncreasing(doc);
    CandidateIndexesCover(doc);
  }

  /** What passing discovery means for a single element. */
  lemma CandidateOfSpec(e: Element)
    ensures var a := Get(e, "Address", "");
      CandidateOf(e).Some? <==>
        && IsGroupAddress(e) && a != "" && ParseAddress(a).Ok?
        && ParseAddress(a).value.middle in Functions && ParseAddress(a).value.sub >= 1
    ensures CandidateOf(e).Some? ==>
      var c := CandidateOf(e).value;
      && c.element == e
      && ParseAddress(Get(e, "Address", "")) == Ok(Address(c.main, c.middle, c.sub))
  {
  }

  /**
   * The map has exactly the candidates' mains as keys, and each value is the
   * largest sub among that main's candidates.
   */
  lemma {:induction false} MaxSubsSpec(cs: seq<Candidate>)
    ensures forall m :: m in MaxSubs(cs) <==> exists i :: 0 <= i < |cs| && cs[i].main == m
    ensures forall i :: 0 <= i < |cs| ==> cs[i].sub <= MaxSubs(cs)[cs[i].main]
    ensures forall m :: m in MaxSubs(cs) ==> exists i :: 0 <= i < |cs| && cs[i].main == m && cs[i].sub == MaxSubs(cs)[m]
  {
    if cs != [] {
      var init := cs[..|cs| - 1];
      MaxSubsSpec(init);
      forall m | m in MaxSubs(cs)
        ensures exists i :: 0 <= i < |cs| && cs[i].main == m && cs[i].sub == MaxSubs(cs)[m]
      {
        if m == cs[|cs| - 1].main && MaxSubs(cs)[m] == cs[|cs| - 1].sub {
        } else {
          assert m in MaxSubs(init) && MaxSubs(cs)[m] == MaxSubs(init)[m];
          var i :| 0 <= i < |init| && init[i].main == m && init[i].sub == MaxSubs(init)[m];
          assert cs[i] == init[i];
        }
      }
      forall m | exists i :: 0 <= i < |cs| && cs[i].main == m
        ensures m in MaxSubs(cs)
      {
        var i :| 0 <= i < |cs| && cs[i].main == m;
        if i < |init| {
          assert init[i] == cs[i];
        }
      }
      forall i | 0 <= i < |cs|
        ensures cs[i].sub <= MaxSubs(cs)[cs[i].main]
      {
        if i < |init| {
          assert init[i] == cs[i];
        }
      }
    }
  }

  /** Every candidate has sub >= 1, so every recorded maximum does too. */
  lemma MaxSubsPositive(cs: seq<Candidate>)
    requires forall i :: 0 <= i < |cs| ==> cs[i].sub >= 1
    ensures forall m :: m in MaxSubs(cs) ==> MaxSubs(cs)[m] >= 1
  {
    MaxSubsSpec(cs);
    forall m | m in MaxSubs(cs)
      ensures MaxSubs(cs)[m] >= 1
    {
      var i :| 0 <= i < |cs| && cs[i].main == m && cs[i].sub == MaxSubs(cs)[m];
    }
  }

  /** `(main, middle, sub)` tuple order. */
  predicate KeyLe(a: Candidate, b: Candidate)
  {
    a.main < b.main || (a.main == b.main && (a.middle < b.middle || (a.middle == b.middle && a.sub <= b.sub)))
  }

  predicate SortedByKey(s: seq<Candidate>)
  {
    forall i, j :: 0 <= i < j < |s| ==> KeyLe(s[i], s[j])
  }

  /** Puts x before the first element whose key is not smaller, keeping ties in input order. */
  function Insert(x: Candidate, s: seq<Candidate>): (r: seq<Candidate>)
    ensures multiset(r) == multiset(s) + multiset{x}
  {
    if s == [] || KeyLe(x, s[0]) then
      [x] + s
    else
      assert s == [s[0]] + s[1..];
      [s[0]] + Insert(x, s[1..])
  }

  /** Every element of an ordered sequence is bounded below by its head. */
  lemma HeadIsLeast(s: seq<Candidate>, y: Candidate)
    requires SortedByKey(s) && s != [] && y in multiset(s)
    ensures KeyLe(s[0], y)
  {
    var j :| 0 <= j < |s| && s[j] == y;
    if j > 0 {
      assert KeyLe(s[0], s[j]);
    }
  }

  lemma {:induction false} InsertSorted(x: Candidate, s: seq<Candidate>)
    requires SortedByKey(s)
    ensures SortedByKey(Insert(x, s))
  {
    if s == [] || KeyLe(x, s[0]) {
      forall y | y in multiset(s)
        ensures KeyLe(x, y)
      {
        HeadIsLeast(s, y);
      }
      forall i, j | 0 <= i < j < |s| + 1
        ensures KeyLe(([x] + s)[i], ([x] + s)[j])
      {
        if i == 0 {
          assert s[j - 1] in multiset(s);
        }
      }
    } else {
      var tail := Insert(x, s[1..]);
      InsertSorted(x, s[1..]);
      forall y | y in multiset(tail)
        ensures KeyLe(s[0], y)
      {
        if y != x {
          assert y in multiset(s[1..]);
          HeadIsLeast(s, y);
        }
      }
      forall i, j | 0 <= i < j < |tail| + 1
        ensures KeyLe(([s[0]] + tail)[i], ([s[0]] + tail)[j])
      {
        if i == 0 {
          assert tail[j - 1] in multiset(tail);
        }
      }
    }
  }

  /** `sorted(candidates, key=lambda x: (x[0], x[1], x[2]))`. */
  function SortByKey(cs: seq<Candidate>): (r: seq<Candidate>)
    ensures multiset(r) == multiset(cs)
    ensures SortedByKey(r)
  {
    if cs == [] then []
    else
      assert cs == [cs[0]] + cs[1..];
      InsertSorted(cs[0], SortByKey(cs[1..]));
      Insert(cs[0], SortByKey(cs[1..]))
  }

  /** One row of the web tool's table. */
  datatype Entry = Entry(
    address: string, originalName: string, generatedName: string, finalName: string,
    main: int, middle: int, sub: int, moduleInMain: int, moduleGlobal: int,
    objectType: ObjectType, objectNo: int, funcName: string, funcNo: int)

  /** The entry of one candidate, given its main's layout; the final name starts as the generated one. */
  function EntryOf(layout: MainLayout, c: Candidate): Entry
    requires c.middle in Functions
  {
    var id := Classify(layout, c.sub);
    var funcNo := Functions[c.middle].1;
    var name := BuildName(id.objectType, id.objectNo, funcNo);
    Entry(Get(c.element, "Address", ""), Get(c.element, "Name", ""), name, name,
          c.main, c.middle, c.sub, id.moduleInMain, id.moduleGlobal,
          id.objectType, id.objectNo, Functions[c.middle].0, funcNo)
  }

  /** A candidate whose main has a layout and whose sub is within that main's range. */
  predicate Eligible(c: Candidate, mainToMaxSub: map<int, int>)
  {
    c.main in mainToMaxSub && c.middle in Functions && 1 <= c.sub <= mainToMaxSub[c.main]
  }

  lemma CandidatesEligible(doc: seq<Element>)
    ensures forall i :: 0 <= i < |Candidates(doc)| ==> Eligible(Candidates(doc)[i], MaxSubs(Candidates(doc)))
  {
    var cs := Candidates(doc);
    CandidatesSpec(doc);
    MaxSubsSpec(cs);
    forall i | 0 <= i < |cs|
      ensures Eligible(cs[i], MaxSubs(cs))
    {
      assert cs[i] in cs;
    }
  }

  /** Sorting keeps every candidate, so it keeps them all eligible. */
  lemma SortedEligible(cs: seq<Candidate>, mp: map<int, int>)
    requires forall i :: 0 <= i < |cs| ==> Eligible(cs[i], mp)
    ensures forall i :: 0 <= i < |SortByKey(cs)| ==> Eligible(SortByKey(cs)[i], mp)
  {
    var sorted := SortByKey(cs);
    forall i | 0 <= i < |sorted|
      ensures Eligible(sorted[i], mp)
    {
      assert sorted[i] in multiset(cs);
      var j :| 0 <= j < |cs| && cs[j] == sorted[i];
    }
  }

  /** A candidate whose main has a recorded layout and whose middle is in the function table. */
  predicate HasLayout(c: Candidate, layouts: map<int, MainLayout>)
  {
    c.main in layouts && c.middle in Functions
  }

  /** One entry per sorted candidate, each from its main's layout. */
  function EntriesOf(sorted: seq<Candidate>, layouts: map<int, MainLayout>): (entries: seq<Entry>)
    requires forall k :: 0 <= k < |sorted| ==> HasLayout(sorted[k], layouts)
    ensures |entries| == |sorted|
  {
    if sorted == [] then []
    else
      var c := sorted[|sorted| - 1];
      assert HasLayout(c, layouts);
      EntriesOf(sorted[..|sorted| - 1], layouts) + [EntryOf(layouts[c.main], c)]
  }

  /** Position k of the entries is the entry of the k-th candidate. */
  lemma {:induction false} EntriesOfAt(sorted: seq<Candidate>, layouts: map<int, MainLayout>, k: int)
    requires forall k :: 0 <= k < |sorted| ==> HasLayout(sorted[k], layouts)
    requires 0 <= k < |sorted|
    ensures HasLayout(sorted[k], layouts) && EntriesOf(sorted, layouts)[k] == EntryOf(layouts[sorted[k].main], sorted[k])
    decreases |sorted|
  {
    var init := sorted[..|sorted| - 1];
    if k < |init| {
      assert init[k] == sorted[k];
      EntriesOfAt(init, layouts, k);
    }
  }

  /** The entries `generate_entries_from_xml` returns for a document. */
  function Entries(doc: seq<Element>): seq<Entry>
  {
    var cs := Candidates(doc);
    var mp := MaxSubs(cs);
    CandidatesLaidOut(doc);
    EntriesOf(SortByKey(cs), LayoutSpec(mp))
  }

  /** Every sorted candidate has a layout, and its sub is within its main's range. */
  lemma CandidatesLaidOut(doc: seq<Element>)
    ensures forall k :: 0 <= k < |SortByKey(Candidates(doc))| ==>
      && Eligible(SortByKey(Candidates(doc))[k], MaxSubs(Candidates(doc)))
      && HasLayout(SortByKey(Candidates(doc))[k], LayoutSpec(MaxSubs(Candidates(doc))))
  {
    var cs := Candidates(doc);
    CandidatesEligible(doc);
    SortedEligible(cs, MaxSubs(cs));
  }

  /** The body of the entry loop of `generate_entries_from_xml`: one candidate's entry, given its main's layout. */
  method MakeEntry(layout: MainLayout, c: Candidate) returns (e: Entry)
    requires c.middle in Functions
    ensures e == EntryOf(layout, c)
  {
    var (funcName, funcNo) := Functions[c.middle];
    var id := Classify(layout, c.sub);
    var generatedName := BuildName(id.objectType, id.objectNo, funcNo);
    e := Entry(Get(c.element, "Address", ""), Get(c.element, "Name", ""),
               generatedName, generatedName, c.main, c.middle, c.sub,
               id.moduleInMain, id.moduleGlobal, id.objectType, id.objectNo,
               funcName, funcNo);
  }

  /** The entry loop of `generate_entries_from_xml`, over the sorted candidates. */
  method MakeEntries(sorted: seq<Candidate>, layouts: map<int, MainLayout>) returns (entries: seq<Entry>)
    requires forall k :: 0 <= k < |sorted| ==> HasLayout(sorted[k], layouts)
    ensures entries == EntriesOf(sorted, layouts)
  {
    entries := [];
    for i := 0 to |sorted|
      invariant entries == EntriesOf(sorted[..i], layouts)
    {
      var c := sorted[i];
      var e := MakeEntry(layouts[c.main], c);
      assert sorted[..i + 1][..i] == sorted[..i];
      entries := entries + [e];
    }
    assert sorted[..|sorted|] == sorted;
  }

  /** `generate_entries_from_xml` without the summary. */
  method GenerateEntries(doc: seq<Element>) returns (entries: seq<Entry>)
    ensures entries == Entries(doc)
  {
    var candidates, mainToMaxSub := Discover(doc);
    var layouts := BuildLayout(mainToMaxSub);
    var sorted := SortByKey(candidates);
    CandidatesLaidOut(doc);
    entries := MakeEntries(sorted, layouts);
  }

  /**
   * `generate_entries_from_xml` on raw bytes: a parse error reaches the
   * caller, which answers with "XML parse failed"; a parsed document yields
   * its entries.
   */
  method GenerateEntriesFromXml(parsed: Result<seq<Element>, XmlError>) returns (r: Result<seq<Entry>, XmlError>)
    ensures r.Err? <==> parsed.Err?
    ensures r.Err? ==> r.error == parsed.error
    ensures r.Ok? ==> r.value == Entries(parsed.value)
  {
    match parsed
    case Err(error) =>
      r := Err(error);
    case Ok(doc) =>
      var entries := GenerateEntries(doc);
      r := Ok(entries);
  }

  /** The i-th entry is the entry of the i-th sorted candidate. */
  lemma EntryAt(doc: seq<Element>, i: int)
    requires 0 <= i < |SortByKey(Candidates(doc))|
    ensures |Entries(doc)| == |SortByKey(Candidates(doc))|
    ensures var c, mp := SortByKey(Candidates(doc))[i], MaxSubs(Candidates(doc));
      && Eligible(c, mp)
      && Entries(doc)[i] == EntryOf(LayoutOf(mp, c.main), c)
  {
    var cs := Candidates(doc);
    CandidatesLaidOut(doc);
    EntriesOfAt(SortByKey(cs), LayoutSpec(MaxSubs(cs)), i);
  }

  /** The i-th entry carries the address and key of the i-th sorted candidate. */
  lemma EntryKey(doc: seq<Element>, i: int)
    requires 0 <= i < |SortByKey(Candidates(doc))|
    ensures |Entries(doc)| == |SortByKey(Candidates(doc))|
    ensures var c, e := SortByKey(Candidates(doc))[i], Entries(doc)[i];
      && e.address == Get(c.element, "Address", "")
      && e.main == c.main && e.middle == c.middle && e.sub == c.sub
  {
    EntryAt(doc, i);
  }

  /** One entry per candidate. */
  lemma EntriesCount(doc: seq<Element>)
    ensures |Entries(doc)| == |Candidates(doc)|
  {
    var cs := Candidates(doc);
    assert |multiset(SortByKey(cs))| == |multiset(cs)|;
  }

  /** The entries come in ascending (main, middle, sub) order. */
  lemma EntriesSorted(doc: seq<Element>)
    ensures forall i, j :: 0 <= i < j < |Entries(doc)| ==>
      var a, b := Entries(doc)[i], Entries(doc)[j];
      a.main < b.main || (a.main == b.main && (a.middle < b.middle || (a.middle == b.middle && a.sub <= b.sub)))
  {
    var sorted := SortByKey(Candidates(doc));
    forall i, j | 0 <= i < j < |Entries(doc)|
      ensures KeyLe(sorted[i], sorted[j])
    {
      EntryKey(doc, i);
      EntryKey(doc, j);
    }
    forall i | 0 <= i < |Entries(doc)|
      ensures var e := Entries(doc)[i]; e.main == sorted[i].main && e.middle == sorted[i].middle && e.sub == sorted[i].sub
    {
      EntryKey(doc, i);
    }
  }

  /** Every candidate's address and key appear among the entries. */
  lemma EntriesCoverCandidates(doc: seq<Element>)
    ensures forall c :: c in Candidates(doc) ==>
      exists i :: (0 <= i < |Entries(doc)| && Entries(doc)[i].address == Get(c.element, "Address", "")
        && Entries(doc)[i].main == c.main && Entries(doc)[i].middle == c.middle && Entries(doc)[i].sub == c.sub)
  {
    var cs := Candidates(doc);
    var sorted := SortByKey(cs);
    var es := Entries(doc);
    forall c | c in cs
      ensures exists i :: (0 <= i < |es| && es[i].address == Get(c.element, "Address", "")
        && es[i].main == c.main && es[i].middle == c.middle && es[i].sub == c.sub)
    {
      assert c in multiset(sorted);
      var i :| 0 <= i < |sorted| && sorted[i] == c;
      EntryKey(doc, i);
    }
  }

  /**
   * What each entry says: its address parses to its (main, middle, sub); the
   * function name and code come from the middle level; the generated name is
   * "<type><no> 9 <code>" and reads back as such; the final name starts equal
   * to it; the global module is the main's module offset plus the module in
   * the main; and the object number gives back the sub.
   */
  lemma EntryFacts(doc: seq<Element>, i: int)
    requires 0 <= i < |Entries(doc)|
    ensures var e, mp := Entries(doc)[i], MaxSubs(Candidates(doc));
      && e.main in mp && 1 <= e.sub <= mp[e.main]
      && ParseAddress(e.address) == Ok(Address(e.main, e.middle, e.sub))
      && e.middle in Functions && (e.funcName, e.funcNo) == Functions[e.middle]
      && e.generatedName == BuildName(e.objectType, e.objectNo, e.funcNo)
      && ParseName(e.generatedName) == Some((e.objectType, e.objectNo, e.funcNo))
      && e.finalName == e.generatedName
      && e.moduleGlobal == LayoutOf(mp, e.main).moduleOffset + e.moduleInMain
      && SubOf(LayoutOf(mp, e.main), e.objectType, e.objectNo) == e.sub
  {
    var cs := Candidates(doc);
    var sorted := SortByKey(cs);
    EntryAt(doc, i);
    var c := sorted[i];
    assert c in multiset(cs);
    CandidatesSpec(doc);
    CandidateOfSpec(c.element);
    var e := Entries(doc)[i];
    ParseBuildNameRoundTrip(e.objectType, e.objectNo, e.funcNo);
    ClassifyInverse(LayoutOf(MaxSubs(cs), c.main), c.sub);
  }

  /** Two eligible candidates with different keys get different generated names. */
  lemma EntryOfNamesDistinct(mp: map<int, int>, c1: Candidate, c2: Candidate)
    requires forall k :: k in mp ==> mp[k] >= 1
    requires Eligible(c1, mp) && Eligible(c2, mp)
    requires (c1.main, c1.middle, c1.sub) != (c2.main, c2.middle, c2.sub)
    ensures EntryOf(LayoutOf(mp, c1.main), c1).generatedName != EntryOf(LayoutOf(mp, c2.main), c2).generatedName
  {
    var a, b := EntryOf(LayoutOf(mp, c1.main), c1), EntryOf(LayoutOf(mp, c2.main), c2);
    if a.generatedName == b.generatedName {
      BuildNameInjective(a.objectType, a.objectNo, a.funcNo, b.objectType, b.objectNo, b.funcNo);
      FunctionTableShape();
      IdentityUnique(mp, c1.main, c1.sub, c2.main, c2.sub);
    }
  }

  /**
   * Two entries for different (main, middle, sub) triples never get the same
   * generated name: the layout gives every sub of every main its own object,
   * and the middle level picks a distinct function code.
   */
  lemma EntryNamesDistinct(doc: seq<Element>, i: int, j: int)
    requires 0 <= i < |Entries(doc)| && 0 <= j < |Entries(doc)|
    requires var a, b := Entries(doc)[i], Entries(doc)[j];
      (a.main, a.middle, a.sub) != (b.main, b.middle, b.sub)
    ensures Entries(doc)[i].generatedName != Entries(doc)[j].generatedName
  {
    var cs := Candidates(doc);
    EntryAt(doc, i);
    EntryAt(doc, j);
    CandidatesEligible(doc);
    MaxSubsPositive(cs);
    EntryOfNamesDistinct(MaxSubs(cs), SortByKey(cs)[i], SortByKey(cs)[j]);
  }
}
