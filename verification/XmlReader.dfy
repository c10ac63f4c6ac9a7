/**
 * The reader of `caldav/xml.ts`. The functions say what one pass does to the text still to be read;
 * `XmlPass` runs the source's loops and is proved equal to them.
 */
module XmlReader {
  import opened Wrappers
  import opened JsText
  import opened Scan
  import opened XmlTree

  type XmlResult<+T> = Result<T, XmlErrorCode>

  // ---- Entities

  /** The value of a run of digits in `base`, or `None` when a character is not a digit. */
  function DigitsValue(s: string, base: nat): Option<nat>
    requires base == 10 || base == 16
  {
    if s == "" then Some(0)
    else
      var d := DigitValue(s[|s| - 1]);
      match DigitsValue(s[..|s| - 1], base)
      case Some(high) => if d < base then Some(high * base + d) else None
      case None => None
  }

  /** The value of a digit; 16 for a character that is none. */
  function DigitValue(c: char): nat {
    if '0' <= c <= '9' then c as int - '0' as int
    else if 'a' <= c <= 'f' then c as int - 'a' as int + 10
    else if 'A' <= c <= 'F' then c as int - 'A' as int + 10
    else 16
  }

  /** The code points a character reference may name (section 2.2 of XML 1.0). */
  predicate IsXmlCode(u: int) {
    u == 0x9 || u == 0xA || u == 0xD || 0x20 <= u <= 0xD7FF || 0xE000 <= u <= 0xFFFD || 0x10000 <= u <= 0x10FFFF
  }

  /** `PREDEFINED`: the five entities every XML document has. */
  const PREDEFINED: map<string, string> := map["lt" := "<", "gt" := ">", "amp" := "&", "quot" := "\"", "apos" := "'"]

  /** A character reference, from its digits. */
  function DecodeNumber(digits: string, hex: bool): XmlResult<string> {
    if !(1 <= |digits| <= if hex then 6 else 7) then Err(Malformed)
    else
      match DigitsValue(digits, if hex then 16 else 10)
      case Some(code) => if IsXmlCode(code) then Ok([code as char]) else Err(Malformed)
      case None => Err(Malformed)
  }

  /** What the text between `&` and `;` stands for. */
  function DecodeEntity(entity: string): XmlResult<string> {
    if entity != "" && entity[0] == '#' then
      if |entity| > 1 && entity[1] == 'x' then DecodeNumber(entity[2..], true) else DecodeNumber(entity[1..], false)
    else if entity in PREDEFINED then Ok(PREDEFINED[entity])
    else Err(Forbidden)
  }

  function Prepend(decoded: string, rest: XmlResult<string>): XmlResult<string> {
    match rest
    case Ok(text) => Ok(decoded + text)
    case Err(error) => Err(error)
  }

  /** `decodeEntities`: entities replaced left to right; the first bad one is the error. */
  function DecodeEntities(raw: string): XmlResult<string>
    decreases |raw|
  {
    var at := IndexOf(raw, '&');
    if at == -1 then Ok(raw) else Prepend(raw[..at], DecodeReference(raw[at + 1..]))
  }

  /** The same from just after an `&`. */
  function DecodeReference(after: string): XmlResult<string>
    decreases |after|
  {
    var end := IndexOf(after, ';');
    if end == -1 then Err(Malformed)
    else
      match DecodeEntity(after[..end])
      case Ok(decoded) => Prepend(decoded, DecodeEntities(after[end + 1..]))
      case Err(error) => Err(error)
  }

  // ---- Names and namespace scopes

  type Declared = map<string, string>

  /** An open element: its name as written, what it holds so far, and the prefixes it declares. */
  datatype Open = Open(qname: string, element: Element, declared: Declared)

  /** `splitQName`: prefix and local name of a qualified name. */
  function SplitQName(qname: string): XmlResult<(string, string)> {
    var colon := IndexOf(qname, ':');
    var prefix := if colon == -1 then "" else qname[..colon];
    var local := if colon == -1 then qname else qname[colon + 1..];
    if (colon != -1 && !IsNcName(prefix)) || !IsNcName(local) then Err(Malformed) else Ok((prefix, local))
  }

  /** `lookupPrefix`: the element's own declarations first, then the open elements, inmost first. */
  function LookupPrefix(stack: seq<Open>, own: Declared, prefix: string): Option<string> {
    if prefix in own then Some(own[prefix]) else LookupOpen(stack, prefix)
  }

  function LookupOpen(stack: seq<Open>, prefix: string): Option<string> {
    if stack == [] then
      if prefix == "xml" then Some(XML_NS) else if prefix == "" then Some("") else None
    else
      var top := stack[|stack| - 1].declared;
      if prefix in top then Some(top[prefix]) else LookupOpen(stack[..|stack| - 1], prefix)
  }

  function ResolvePrefix(stack: seq<Open>, own: Declared, prefix: string): XmlResult<string> {
    match LookupPrefix(stack, own, prefix)
    case Some(namespace) => Ok(namespace)
    case None => Err(Malformed)
  }

  /** `checkDeclaration`: whether a declaration binds a reserved prefix or name, or nothing. */
  predicate IsForbiddenDeclaration(prefix: string, namespace: string) {
    (if prefix == "xml" then namespace != XML_NS
     else prefix == "xmlns" || namespace == XMLNS_NS || namespace == XML_NS) ||
    (prefix != "" && namespace == "")
  }

  // ---- Start tags

  type RawAttribute = (string, string)

  /** The attributes of a start tag as written, whether it closed itself, and what follows it. */
  datatype Tag = Tag(attributes: seq<RawAttribute>, selfClosing: bool, rest: string)

  /** The runs of characters the start tag loops skip or collect. */
  datatype CharClass = Space | TagName | AttributeName

  predicate InClass(c: char, class_: CharClass) {
    match class_
    case Space => IsSpace(c)
    case TagName => !IsSpace(c) && c != '>' && c != '/'
    case AttributeName => !IsSpace(c) && c != '=' && c != '/' && c != '>'
  }

  /** How many leading characters of `s` are in the class. */
  function Span(s: string, class_: CharClass): (n: nat)
    ensures n <= |s|
  {
    if s == "" || !InClass(s[0], class_) then 0 else 1 + Span(s[1..], class_)
  }

  function SkipSpace(s: string): (rest: string)
    ensures |rest| <= |s|
  {
    s[Span(s, Space)..]
  }

  /** The rest of a quoted value: decoded up to `quote`, and what follows that. */
  function ReadQuotedBy(quote: char, s: string): (r: XmlResult<(string, string)>)
    ensures r.Ok? ==> |r.value.1| < |s|
  {
    var close := IndexOf(s, quote);
    if close == -1 || '<' in s[..close] then Err(Malformed)
    else
      var value :- DecodeEntities(s[..close]);
      Ok((value, s[close + 1..]))
  }

  /** A quoted value and what follows its closing quote. */
  function ReadQuoted(s: string): (r: XmlResult<(string, string)>)
    ensures r.Ok? ==> |r.value.1| < |s|
  {
    if s == "" || (s[0] != '"' && s[0] != '\'') then Err(Malformed) else ReadQuotedBy(s[0], s[1..])
  }

  /** What follows `=` and the white space around it. */
  function ReadEquals(s: string): (r: XmlResult<string>)
    ensures r.Ok? ==> |r.value| < |s|
  {
    var s1 := SkipSpace(s);
    if s1 == "" || s1[0] != '=' then Err(Malformed) else Ok(SkipSpace(s1[1..]))
  }

  /** `name =`, and what follows it up to the value. */
  function ReadAttributeName(s: string): (r: XmlResult<(string, string)>)
    ensures r.Ok? ==> |r.value.1| < |s|
  {
    var n := Span(s, AttributeName);
    if n == 0 then Err(Malformed)
    else
      var rest :- ReadEquals(s[n..]);
      Ok((s[..n], rest))
  }

  /** `name = "value"`, and what follows it. */
  function ReadAttribute(s: string): (r: XmlResult<(RawAttribute, string)>)
    ensures r.Ok? ==> |r.value.1| < |s|
  {
    var (name, quoted) :- ReadAttributeName(s);
    var (value, rest) :- ReadQuoted(quoted);
    Ok(((name, value), rest))
  }

  function WithAttributes(before: seq<RawAttribute>, rest: XmlResult<Tag>): XmlResult<Tag> {
    match rest
    case Ok(tag) => Ok(tag.(attributes := before + tag.attributes))
    case Err(error) => Err(error)
  }

  function ReadAttributes(s: string): (r: XmlResult<Tag>)
    ensures r.Ok? ==> |r.value.rest| < |s|
    decreases |s|
  {
    var s1 := SkipSpace(s);
    if s1 == "" then Err(Malformed)
    else if s1[0] == '>' then Ok(Tag([], false, s1[1..]))
    else if "/>" <= s1 then Ok(Tag([], true, s1[2..]))
    else
      var (attribute, rest) :- ReadAttribute(s1);
      WithAttributes([attribute], ReadAttributes(rest))
  }

  predicate IsDeclaration(name: string) {
    name == "xmlns" || "xmlns:" <= name
  }

  function NamesOf(attributes: seq<RawAttribute>): set<string> {
    set a | a in attributes :: a.0
  }

  /** One declaration added; an attribute that declares nothing changes nothing. */
  function Declare(declared: Declared, name: string, value: string): XmlResult<Declared> {
    if !IsDeclaration(name) then Ok(declared)
    else
      var split :- if name == "xmlns" then Ok(("", "")) else SplitQName(name);
      if IsForbiddenDeclaration(split.1, value) then Err(Malformed) else Ok(declared[split.1 := value])
  }

  /** The prefixes a start tag declares; a repeated attribute name or a bad declaration is an error. */
  function Declarations(attributes: seq<RawAttribute>): XmlResult<Declared> {
    if attributes == [] then Ok(map[])
    else
      var n := |attributes| - 1;
      var declared :- Declarations(attributes[..n]);
      if attributes[n].0 in NamesOf(attributes[..n]) then Err(Malformed)
      else Declare(declared, attributes[n].0, attributes[n].1)
  }

  function ExpandedNames(attributes: seq<Attribute>): set<(string, string)> {
    set a | a in attributes :: (a.namespace, a.name)
  }

  /** One attribute that is no declaration, with its namespace; an unprefixed one has none. */
  function ResolveAttribute(stack: seq<Open>, own: Declared, name: string, value: string): XmlResult<Attribute> {
    var split :- SplitQName(name);
    var namespace :- if split.0 == "" then Ok("") else ResolvePrefix(stack, own, split.0);
    Ok(Attribute(namespace, split.1, value))
  }

  /** The attributes that are no declarations, resolved; two with one expanded name are an error. */
  function ResolveAttributes(stack: seq<Open>, own: Declared, attributes: seq<RawAttribute>)
    : XmlResult<seq<Attribute>>
  {
    if attributes == [] then Ok([])
    else
      var n := |attributes| - 1;
      var before :- ResolveAttributes(stack, own, attributes[..n]);
      if IsDeclaration(attributes[n].0) then Ok(before)
      else
        var resolved :- ResolveAttribute(stack, own, attributes[n].0, attributes[n].1);
        if (resolved.namespace, resolved.name) in ExpandedNames(before) then Err(Malformed)
        else Ok(before + [resolved])
  }

  // ---- The pass

  /** The open elements, outermost first, and the root once it is closed. */
  datatype State = State(stack: seq<Open>, root: Option<Element>)

  function Append(children: seq<Node>, child: Node): seq<Node> {
    if child.Text? && children != [] && children[|children| - 1].Text? then
      children[..|children| - 1] + [Text(children[|children| - 1].text + child.text)]
    else children + [child]
  }

  /** Adds a child to the inmost open element; an element outside all others is the root. */
  function Attach(state: State, child: Node): State
    requires state.stack != [] || child.Elem?
  {
    if state.stack == [] then state.(root := Some(child))
    else
      var n := |state.stack| - 1;
      var top := state.stack[n];
      var element := top.element.(children := Append(top.element.children, child));
      state.(stack := state.stack[n := top.(element := element)])
  }

  function AddText(state: State, value: string): XmlResult<State> {
    if state.stack == [] then
      if forall c :: c in value ==> IsSpace(c) then Ok(state) else Err(Malformed)
    else if value == "" then Ok(state)
    else Ok(Attach(state, Text(value)))
  }

  /** Puts the start tag `qname`, read as `tag`, into the tree. */
  function OpenElement(state: State, qname: string, tag: Tag, maxDepth: nat): XmlResult<State> {
    if state.stack == [] && state.root.Some? then Err(Malformed)
    else if |state.stack| >= maxDepth then Err(TooLarge)
    else
      var declared :- Declarations(tag.attributes);
      var split :- SplitQName(qname);
      var namespace :- ResolvePrefix(state.stack, declared, split.0);
      var attributes :- ResolveAttributes(state.stack, declared, tag.attributes);
      var element := Elem(namespace, split.1, attributes, []);
      if tag.selfClosing then Ok(Attach(state, element))
      else Ok(state.(stack := state.stack + [Open(qname, element, declared)]))
  }

  function CloseElement(state: State, qname: string): XmlResult<State> {
    if state.stack == [] then Err(Malformed)
    else
      var n := |state.stack| - 1;
      if state.stack[n].qname != qname then Err(Malformed)
      else Ok(Attach(state.(stack := state.stack[..n]), state.stack[n].element))
  }

  /** What follows the first `marker` of `s`. */
  function SkipTo(s: string, marker: string): (r: XmlResult<string>)
    requires marker != ""
    ensures r.Ok? ==> |r.value| < |s|
  {
    var at := Find(s, marker);
    if at == -1 then Err(Malformed) else Ok(s[at + |marker|..])
  }

  /** A CDATA section, from after its `<![CDATA[`. */
  function CData(s: string, state: State): (r: XmlResult<(string, State)>)
    ensures r.Ok? ==> |r.value.0| < |s|
  {
    if state.stack == [] then Err(Malformed)
    else
      var end := Find(s, "]]>");
      if end == -1 then Err(Malformed)
      else
        var next :- AddText(state, s[..end]);
        Ok((s[end + 3..], next))
  }

  /** An end tag, from after its `</`. */
  function EndTag(s: string, state: State): (r: XmlResult<(string, State)>)
    ensures r.Ok? ==> |r.value.0| < |s|
  {
    var end := IndexOf(s, '>');
    if end == -1 then Err(Malformed)
    else
      var next :- CloseElement(state, TrimEnd(s[..end]));
      Ok((s[end + 1..], next))
  }

  /** A start tag from after its name. */
  function AfterTagName(qname: string, s: string, state: State, maxDepth: nat): (r: XmlResult<(string, State)>)
    ensures r.Ok? ==> |r.value.0| < |s|
  {
    var tag :- ReadAttributes(s);
    var next :- OpenElement(state, qname, tag, maxDepth);
    Ok((tag.rest, next))
  }

  /** A start tag, from after its `<`. */
  function StartTag(s: string, state: State, maxDepth: nat): (r: XmlResult<(string, State)>)
    ensures r.Ok? ==> |r.value.0| < |s|
  {
    var n := Span(s, TagName);
    if n == 0 then Err(Malformed) else AfterTagName(s[..n], s[n..], state, maxDepth)
  }

  /** One piece of markup: the text after it, and the new state. */
  function Markup(s: string, state: State, maxDepth: nat): (r: XmlResult<(string, State)>)
    requires s != "" && s[0] == '<'
    ensures r.Ok? ==> |r.value.0| < |s|
  {
    if "<?" <= s then
      var rest :- SkipTo(s, "?>");
      Ok((rest, state))
    else if "<!--" <= s then
      var rest :- SkipTo(s, "-->");
      Ok((rest, state))
    else if "<![CDATA[" <= s then CData(s[9..], state)
    else if "<!" <= s then Err(Forbidden)
    else if "</" <= s then EndTag(s[2..], state)
    else StartTag(s[1..], state, maxDepth)
  }

  /** Text between two pieces of markup: decoded and added, when there is any. */
  function TextBetween(raw: string, state: State): XmlResult<State> {
    if raw == "" then Ok(state)
    else
      var text :- DecodeEntities(raw);
      AddText(state, text)
  }

  /** One turn of the pass: the text up to the next `<`, at `lt`, and the markup there. */
  function Turn(s: string, lt: nat, state: State, maxDepth: nat): (r: XmlResult<(string, State)>)
    requires lt < |s| && s[lt] == '<'
    ensures r.Ok? ==> |r.value.0| < |s|
  {
    var withText :- TextBetween(s[..lt], state);
    Markup(s[lt..], withText, maxDepth)
  }

  /** The rest of the pass, from the text still to be read. */
  function Run(s: string, state: State, maxDepth: nat): XmlResult<Element>
    decreases |s|
  {
    if s == "" then Finish(state)
    else
      var lt := IndexOf(s, '<');
      if lt == -1 then
        var last :- TextBetween(s, state);
        Finish(last)
      else
        var (rest, next) :- Turn(s, lt, state, maxDepth);
        Run(rest, next, maxDepth)
  }

  function Finish(state: State): XmlResult<Element> {
    if state.root.None? || state.stack != [] then Err(Malformed) else Ok(state.root.value)
  }

  /** UTF-8 octets of one character, and of a text. */
  function Utf8Octets(c: char): nat {
    var u := c as int;
    if u < 0x80 then 1 else if u < 0x800 then 2 else if u < 0x10000 then 3 else 4
  }

  function Utf8Length(s: string): nat {
    if s == "" then 0 else Utf8Length(s[..|s| - 1]) + Utf8Octets(s[|s| - 1])
  }

  const START := State([], None)

  /** `parseXml` with both limits given. */
  function Parse(text: string, maxBytes: nat, maxDepth: nat): XmlResult<Element> {
    if Utf8Length(text) > maxBytes then Err(TooLarge)
    else if text != "" && text[0] as int == 0xFEFF then Run(text[1..], START, maxDepth)
    else Run(text, START, maxDepth)
  }
}
