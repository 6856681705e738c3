/**
 * The parts of an exported group-address XML file that both tools touch:
 * the descendants of the root element in document order, each with its
 * qualified tag and its attributes.
 */
module Document {
  datatype Element = Element(tag: string, attrs: map<string, string>)

  /**
   * `ET.ParseError`: the bytes are not well-formed XML. The parser itself is
   * not modelled; callers receive its outcome as a parameter.
   */
  datatype XmlError = ParseError

  /** `{http://knx.org/xml/ga-export/01}GroupAddress`, what `.//k:GroupAddress` matches. */
  const GroupAddressTag: string := "{http://knx.org/xml/ga-export/01}GroupAddress"

  predicate IsGroupAddress(e: Element) { e.tag == GroupAddressTag }

  /** `element.get(key, default)`. */
  function Get(e: Element, key: string, default: string): (v: string)
    ensures key in e.attrs ==> v == e.attrs[key]
    ensures key !in e.attrs ==> v == default
  {
    if key in e.attrs then e.attrs[key] else default
  }

  /** `element.set(key, value)`. */
  function Set(e: Element, key: string, value: string): Element
  {
    e.(attrs := e.attrs[key := value])
  }

  /** Setting an attribute keeps the tag, gives the key its value and leaves every other attribute alone. */
  lemma SetSpec(e: Element, key: string, value: string)
    ensures Set(e, key, value).tag == e.tag
    ensures Get(Set(e, key, value), key, "") == value
    ensures forall k :: k != key ==> Get(Set(e, key, value), k, "") == Get(e, k, "")
    ensures Set(e, key, value).attrs.Keys == e.attrs.Keys + {key}
    ensures forall k :: k in e.attrs && k != key ==> Set(e, key, value).attrs[k] == e.attrs[k]
  {
  }
}
