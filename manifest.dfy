/**
 * The parsed MPD (the `xml.etree.ElementTree` tree the downloader walks). Parsing itself is
 * not modelled: an element carries its tag and attribute names in ElementTree's
 * `{namespace-uri}local` spelling, its attributes in document order, its text (`None` when
 * the element has none) and its children.
 */
module Manifest {
  import opened Wrappers

  datatype Attr = Attr(name: string, value: string)

  datatype Element = Element(tag: string, attrs: seq<Attr>, text: Option<string>, children: seq<Element>)

  /** The DASH MPD namespace of ISO/IEC 23009-1, bound to the `mpd` prefix in the source. */
  const MpdNs: string := "{urn:mpeg:dash:schema:mpd:2011}"

  /** The Common Encryption namespace of ISO/IEC 23001-7, bound to the `cenc` prefix. */
  const CencNs: string := "{urn:mpeg:cenc:2013}"

  /** `elem.attrib.get(name)`: the value of the first attribute with that name. */
  function GetAttr(attrs: seq<Attr>, name: string): (r: Option<string>)
    ensures r.None? <==> forall i :: 0 <= i < |attrs| ==> attrs[i].name != name
    ensures r.Some? ==> Attr(name, r.value) in attrs
  {
    if attrs == [] then None
    else if attrs[0].name == name then Some(attrs[0].value)
    else GetAttr(attrs[1..], name)
  }

  /** `elem.iter()`: the element itself, then its descendants, in document (pre-)order. */
  function Preorder(e: Element): (r: seq<Element>)
    ensures |r| >= 1 && r[0] == e
    decreases e, 1
  {
    [e] + Descendants(e)
  }

  /** What the ElementTree paths starting with `.//` search from `e`: its descendants in document order,
      without `e` itself. */
  function Descendants(e: Element): seq<Element>
    decreases e, 0
  {
    PreorderAll(e.children)
  }

  function PreorderAll(es: seq<Element>): seq<Element>
    decreases es
  {
    if es == [] then [] else Preorder(es[0]) + PreorderAll(es[1..])
  }

  /** The tag test of the ElementTree paths. */
  function HasTag(tag: string): Element -> bool {
    (d: Element) => d.tag == tag
  }

  /** `e.findall(".//" + tag)`: descendants with the given tag, all of them, in document order. */
  function FindAllDeep(e: Element, tag: string): (r: seq<Element>)
    ensures forall i :: 0 <= i < |r| ==> r[i].tag == tag && r[i] in Descendants(e)
    ensures forall i :: 0 <= i < |Descendants(e)| && Descendants(e)[i].tag == tag ==> Descendants(e)[i] in r
  {
    Filter(Descendants(e), HasTag(tag))
  }

  /** `e.findall(tag)`: children with the given tag, all of them, in order. */
  function FindAllChildren(e: Element, tag: string): (r: seq<Element>)
    ensures forall i :: 0 <= i < |r| ==> r[i].tag == tag && r[i] in e.children
    ensures forall i :: 0 <= i < |e.children| && e.children[i].tag == tag ==> e.children[i] in r
  {
    Filter(e.children, HasTag(tag))
  }

  /** `e.find(tag)`: the first child with the given tag. */
  function FindChild(e: Element, tag: string): (r: Option<Element>)
    ensures r.None? <==> forall i :: 0 <= i < |e.children| ==> e.children[i].tag != tag
    ensures r.Some? ==> r.value.tag == tag && r.value in e.children
    ensures r.Some? ==> exists i :: FirstAt(e.children, tag, i) && e.children[i] == r.value
  {
    var all := FindAllChildren(e, tag);
    FilterHead(e.children, HasTag(tag));
    var found := FirstIndex(e.children, HasTag(tag));
    if all == [] then None
    else
      assert HasTag(tag)(e.children[found.value]);
      assert FirstAt(e.children, tag, found.value);
      Some(all[0])
  }

  /** `i` is the position of the first element of `es` with the given tag. */
  predicate FirstAt(es: seq<Element>, tag: string, i: int) {
    0 <= i < |es| && es[i].tag == tag && forall j :: 0 <= j < i ==> es[j].tag != tag
  }

  /** `e.find(".//" + tag)`: the first descendant with the given tag, in document order. */
  function FindDeep(e: Element, tag: string): (r: Option<Element>)
    ensures r.None? <==> forall i :: 0 <= i < |Descendants(e)| ==> Descendants(e)[i].tag != tag
    ensures r.Some? ==> r.value.tag == tag && r.value in Descendants(e)
    ensures r.Some? ==> exists i :: FirstAt(Descendants(e), tag, i) && Descendants(e)[i] == r.value
  {
    var all := FindAllDeep(e, tag);
    FilterHead(Descendants(e), HasTag(tag));
    var found := FirstIndex(Descendants(e), HasTag(tag));
    if all == [] then None
    else
      assert HasTag(tag)(Descendants(e)[found.value]);
      assert FirstAt(Descendants(e), tag, found.value);
      Some(all[0])
  }
}
