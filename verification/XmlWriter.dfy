/** The serializer of `caldav/xml.ts`: a prefix for every namespace, and every value escaped. */
module XmlWriter {
  import opened Wrappers
  import opened XmlTree

  /** A `TypeError` for a bad name, a `RangeError` for a character XML cannot carry. */
  datatype WriteError = BadName | BadCharacter

  type WriteResult<+T> = Result<T, WriteError>

  /** `NOT_XML_CHAR`, negated. */
  predicate IsXmlChar(c: char) {
    var u := c as int;
    !(u <= 0x8 || u == 0xB || u == 0xC || 0xE <= u <= 0x1F || u == 0xFFFE || u == 0xFFFF)
  }

  predicate IsXmlText(s: string) {
    forall c :: c in s ==> IsXmlChar(c)
  }

  /** The entity a character is written as, or "" for itself; `\n` and `\t` only in an attribute. */
  function EntityFor(c: char, inAttribute: bool): string {
    if c == '&' then "amp"
    else if c == '<' then "lt"
    else if c == '>' then "gt"
    else if c == '"' then "quot"
    else if c == '\'' then "apos"
    else if c == '\r' then "#13"
    else if c == '\n' && inAttribute then "#10"
    else if c == '\t' && inAttribute then "#9"
    else ""
  }

  function EscapeChar(c: char, inAttribute: bool): string {
    var entity := EntityFor(c, inAttribute);
    if entity == "" then [c] else "&" + entity + ";"
  }

  function Escape(s: string, inAttribute: bool): string {
    if s == "" then "" else EscapeChar(s[0], inAttribute) + Escape(s[1..], inAttribute)
  }

  /** A number in decimal, as a template literal writes it. */
  function Decimal(n: nat): string {
    if n < 10 then [('0' as int + n) as char] else Decimal(n / 10) + [('0' as int + n % 10) as char]
  }

  /** The prefix map in insertion order: namespace and prefix. */
  type Prefixes = seq<(string, string)>

  predicate HasNamespace(prefixes: Prefixes, namespace: string) {
    exists p :: p in prefixes && p.0 == namespace
  }

  /** Gives `namespace` a prefix unless it has one or needs none. */
  function AddPrefix(prefixes: Prefixes, namespace: string): Prefixes
    requires prefixes != []
  {
    if namespace == "" || HasNamespace(prefixes, namespace) then prefixes
    else prefixes + [(namespace, if namespace == DAV_NS then "D" else "N" + Decimal(|prefixes| - 1))]
  }

  /** The attributes of one element, in order: names checked, namespaces given a prefix. */
  function CollectAttributes(attributes: seq<Attribute>, prefixes: Prefixes): (r: WriteResult<Prefixes>)
    requires prefixes != []
    ensures r.Ok? ==> prefixes <= r.value
    decreases |attributes|
  {
    if attributes == [] then Ok(prefixes)
    else
      var a := attributes[0];
      if !IsNcName(a.name) || a.namespace == XMLNS_NS then Err(BadName)
      else CollectAttributes(attributes[1..], AddPrefix(prefixes, a.namespace))
  }

  predicate HasBareXmlns(attributes: seq<Attribute>) {
    exists a :: a in attributes && a.namespace == "" && a.name == "xmlns"
  }

  /** `collect`: every name of the tree, in document order. */
  function Collect(e: Element, prefixes: Prefixes): (r: WriteResult<Prefixes>)
    requires prefixes != []
    ensures r.Ok? ==> prefixes <= r.value
    decreases e
  {
    if HasBareXmlns(e.attributes) || !IsNcName(e.name) || e.namespace == XMLNS_NS then Err(BadName)
    else
      var own :- CollectAttributes(e.attributes, AddPrefix(prefixes, e.namespace));
      CollectChildren(e.children, own)
  }

  function CollectChildren(children: seq<Node>, prefixes: Prefixes): (r: WriteResult<Prefixes>)
    requires prefixes != []
    ensures r.Ok? ==> prefixes <= r.value
    decreases children
  {
    if children == [] then Ok(prefixes)
    else
      var own :- if children[0].Elem? then Collect(children[0], prefixes) else Ok(prefixes);
      CollectChildren(children[1..], own)
  }

  /** The prefix of `namespace`; the fallback is never reached by a collected tree. */
  function PrefixOf(prefixes: Prefixes, namespace: string): string {
    if prefixes == [] then "undefined"
    else if prefixes[0].0 == namespace then prefixes[0].1
    else PrefixOf(prefixes[1..], namespace)
  }

  function Qualify(prefixes: Prefixes, namespace: string, name: string): string {
    if namespace == "" then name else PrefixOf(prefixes, namespace) + ":" + name
  }

  /** One attribute as written: a space, the name, and the escaped value in double quotes. */
  function WriteAttribute(name: string, value: string): string {
    " " + name + "=\"" + Escape(value, true) + "\""
  }

  function WriteAttributes(attributes: seq<(string, string)>): string {
    if attributes == [] then ""
    else WriteAttribute(attributes[0].0, attributes[0].1) + WriteAttributes(attributes[1..])
  }

  /** The declarations of the root, as name and value; `xml` is bound by definition. */
  function DeclarationPairs(prefixes: Prefixes): seq<(string, string)> {
    if prefixes == [] then []
    else if prefixes[0].0 == XML_NS then DeclarationPairs(prefixes[1..])
    else [("xmlns:" + prefixes[0].1, prefixes[0].0)] + DeclarationPairs(prefixes[1..])
  }

  function AttributePairs(prefixes: Prefixes, attributes: seq<Attribute>): seq<(string, string)> {
    if attributes == [] then []
    else
      [(Qualify(prefixes, attributes[0].namespace, attributes[0].name), attributes[0].value)] +
      AttributePairs(prefixes, attributes[1..])
  }

  /** `write`: the element with `declarations` among its attributes. */
  function Write(e: Element, prefixes: Prefixes, declarations: seq<(string, string)>): string
    decreases e, 1
  {
    var qname := Qualify(prefixes, e.namespace, e.name);
    var open := "<" + qname + WriteAttributes(declarations + AttributePairs(prefixes, e.attributes));
    if e.children == [] then open + "/>"
    else open + ">" + WriteChildren(e.children, prefixes) + "</" + qname + ">"
  }

  function WriteChildren(children: seq<Node>, prefixes: Prefixes): string
    decreases children, 0
  {
    if children == [] then ""
    else
      (if children[0].Elem? then Write(children[0], prefixes, []) else Escape(children[0].text, false)) +
      WriteChildren(children[1..], prefixes)
  }

  /** Every value in the tree can be written. */
  predicate IsWritable(e: Element)
    decreases e
  {
    (forall a :: a in e.attributes ==> IsXmlText(a.value)) && AllWritable(e.children)
  }

  predicate AllWritable(children: seq<Node>)
    decreases children
  {
    children == [] ||
    ((if children[0].Elem? then IsWritable(children[0]) else IsXmlText(children[0].text)) &&
     AllWritable(children[1..]))
  }

  const DECLARATION_HEAD := "<?xml version=\"1.0\" encoding=\"utf-8\""
  const XML_DECLARATION := DECLARATION_HEAD + "?>\n"

  const INITIAL_PREFIXES: Prefixes := [(XML_NS, "xml")]

  /** `serializeXml`. Names are checked first, so a bad name wins over a bad character. */
  function Serialize(root: Element): WriteResult<string> {
    var prefixes :- Collect(root, INITIAL_PREFIXES);
    if !IsWritable(root) || exists p :: p in prefixes && !IsXmlText(p.0) then Err(BadCharacter)
    else Ok(XML_DECLARATION + Write(root, prefixes, DeclarationPairs(prefixes)))
  }
}
