/**
 * `apply_names_to_xml` (web tool): every GroupAddress element whose Address
 * has a non-empty name in the map gets that name; nothing else changes.
 */
module Rename {
  import opened Wrappers
  import opened Document

  /** What the loop does to one element. */
  function Renamed(e: Element, names: map<string, string>): Element
  {
    var address := Get(e, "Address", "");
    if IsGroupAddress(e) && address in names && names[address] != "" then Set(e, "Name", names[address])
    else e
  }

  method ApplyNames(doc: seq<Element>, names: map<string, string>) returns (out: seq<Element>)
    ensures |out| == |doc|
    ensures forall i :: 0 <= i < |doc| ==> out[i] == Renamed(doc[i], names)
  {
    out := [];
    for i := 0 to |doc|
      invariant |out| == i
      invariant forall k :: 0 <= k < i ==> out[k] == Renamed(doc[k], names)
    {
      out := out + [Renamed(doc[i], names)];
    }
  }

  /**
   * The whole of `apply_names_to_xml`: a document that does not parse is
   * the parser's error; otherwise every element is renamed in order.
   */
  method ApplyNamesToXml(parsed: Result<seq<Element>, XmlError>, names: map<string, string>)
    returns (r: Result<seq<Element>, XmlError>)
    ensures r.Err? <==> parsed.Err?
    ensures r.Err? ==> r.error == parsed.error
    ensures r.Ok? ==> |r.value| == |parsed.value|
    ensures r.Ok? ==> forall i :: 0 <= i < |parsed.value| ==> r.value[i] == Renamed(parsed.value[i], names)
  {
    match parsed
    case Err(error) =>
      r := Err(error);
    case Ok(doc) =>
      var out := ApplyNames(doc, names);
      r := Ok(out);
  }

  /**
   * Tags, addresses and every attribute but Name are kept; Name becomes the
   * mapped name exactly when the element is a GroupAddress with a non-empty
   * mapped name, and stays as it was otherwise.
   */
  lemma RenamedSpec(e: Element, names: map<string, string>)
    ensures var r, a := Renamed(e, names), Get(e, "Address", "");
      && r.tag == e.tag
      && (forall k :: k != "Name" ==> Get(r, k, "") == Get(e, k, ""))
      && (IsGroupAddress(e) && a in names && names[a] != "" ==> r.attrs.Keys == e.attrs.Keys + {"Name"})
      && (forall k :: k in e.attrs && k != "Name" ==> r.attrs[k] == e.attrs[k])
      && (IsGroupAddress(e) && a in names && names[a] != "" ==> Get(r, "Name", "") == names[a])
      && (!(IsGroupAddress(e) && a in names && names[a] != "") ==> r == e)
  {
    var a := Get(e, "Address", "");
    if IsGroupAddress(e) && a in names && names[a] != "" {
      SetSpec(e, "Name", names[a]);
    }
  }

  /** Applying the same map twice changes nothing more than applying it once. */
  lemma RenamedIdempotent(e: Element, names: map<string, string>)
    ensures Renamed(Renamed(e, names), names) == Renamed(e, names)
  {
    var a := Get(e, "Address", "");
    if IsGroupAddress(e) && a in names && names[a] != "" {
      assert Get(Renamed(e, names), "Address", "") == a;
      assert Renamed(e, names).attrs["Name" := names[a]] == Renamed(e, names).attrs;
    }
  }
}
