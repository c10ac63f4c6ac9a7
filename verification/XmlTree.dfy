/** The element tree of `caldav/xml.ts`, its names, and the shape a parsed tree always has. */
module XmlTree {
  import opened JsText

  const DAV_NS := "DAV:"
  const XML_NS := "http://www.w3.org/XML/1998/namespace"
  const XMLNS_NS := "http://www.w3.org/2000/xmlns/"

  /** Why a document is refused. */
  datatype XmlErrorCode = TooLarge | Forbidden | Malformed

  datatype Attribute = Attribute(namespace: string, name: string, value: string)

  /** A child of an element: text, or an element with its namespace resolved. */
  datatype Node =
    | Text(text: string)
    | Elem(namespace: string, name: string, attributes: seq<Attribute>, children: seq<Node>)

  type Element = n: Node | n.Elem? witness Elem("", "a", [], [])

  /** The four characters XML calls white space. */
  predicate IsSpace(c: char) {
    c == ' ' || c == '\t' || c == '\n' || c == '\r'
  }

  predicate IsNameStart(c: char) {
    'A' <= c <= 'Z' || 'a' <= c <= 'z' || c == '_' || c as int >= 0xC0
  }

  predicate IsNameChar(c: char) {
    IsNameStart(c) || '0' <= c <= '9' || c == '.' || c == '-' || c as int == 0xB7
  }

  /** `NC_NAME`: a name without a colon, in the simplified ranges of the source. */
  predicate IsNcName(s: string) {
    s != "" && IsNameStart(s[0]) && forall c :: c in s ==> IsNameChar(c)
  }

  /** Two attributes with the same expanded name (section 6.3 of Namespaces in XML 1.0). */
  predicate DistinctNames(attributes: seq<Attribute>) {
    forall i, j :: 0 <= i < j < |attributes| ==>
      (attributes[i].namespace, attributes[i].name) != (attributes[j].namespace, attributes[j].name)
  }

  /** No empty text, and no two texts side by side. */
  predicate MergedText(children: seq<Node>) {
    && (forall i :: 0 <= i < |children| ==> children[i] != Text(""))
    && (forall i :: 0 < i < |children| ==> !(children[i - 1].Text? && children[i].Text?))
  }

  /** Nested at most `depth` elements deep, this one included. */
  predicate WithinDepth(e: Element, depth: int)
    decreases e
  {
    depth >= 1 && AllWithinDepth(e.children, depth - 1)
  }

  predicate AllWithinDepth(children: seq<Node>, depth: int)
    decreases children
  {
    children == [] ||
    ((children[0].Elem? ==> WithinDepth(children[0], depth)) && AllWithinDepth(children[1..], depth))
  }

  /** At every element: distinct attributes and merged, non-empty text. */
  predicate Normal(e: Element)
    decreases e
  {
    DistinctNames(e.attributes) && MergedText(e.children) && AllNormal(e.children)
  }

  predicate AllNormal(children: seq<Node>)
    decreases children
  {
    children == [] ||
    ((children[0].Elem? ==> Normal(children[0])) && AllNormal(children[1..]))
  }

  /** No element that needs an end tag has a name whose last character `trimEnd` strips. */
  predicate Closable(e: Element)
    decreases e
  {
    (e.children != [] && e.name != "" ==> !IsJsSpace(e.name[|e.name| - 1])) && AllClosable(e.children)
  }

  predicate AllClosable(children: seq<Node>)
    decreases children
  {
    children == [] ||
    ((children[0].Elem? ==> Closable(children[0])) && AllClosable(children[1..]))
  }
}
