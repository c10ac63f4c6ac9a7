/**
 * Documents as a writer may spell them, with comments, instructions, CDATA sections and namespace
 * declarations anywhere, and what they mean; `parseXml` of `caldav/xml.ts` gives exactly that.
 */
module XmlDocument {
  import opened Wrappers
  import opened JsText
  import opened Scan
  import opened XmlTree
  import opened XmlReader
  import opened XmlStartTag
  import opened XmlOpenElement
  import opened XmlRoundTrip
  import opened XmlAccepted
  import opened XmlSpelling

  // ---- Documents and their texts

  /** A piece of content; an element without an end tag, `None`, closes itself. */
  datatype Item =
    | Chars(bits: seq<Bit>)
    | CDataSection(text: string)
    | Comment(text: string)
    | Instruction(text: string)
    | Tagged(name: Name, attributes: seq<Spelled>, gap: string, content: seq<Item>, endGap: Option<string>)

  function StartText(name: Name, attributes: seq<Spelled>, gap: string, selfClosing: bool): string {
    "<" + (NameText(name) + (AllSpelled(attributes) + (gap + TagEnd(selfClosing))))
  }

  function EndText(name: Name, endGap: string): string {
    "</" + (NameText(name) + (endGap + ">"))
  }

  function ItemText(item: Item): string
    decreases item, 1
  {
    match item
    case Chars(bits) => BitsText(bits)
    case CDataSection(text) => "<![CDATA[" + (text + "]]>")
    case Comment(text) => "<!--" + (text + "-->")
    case Instruction(text) => "<?" + (text + "?>")
    case Tagged(name, attributes, gap, content, endGap) =>
      StartText(name, attributes, gap, endGap.None?) +
      if endGap.None? then "" else ItemsText(content) + EndText(name, endGap.value)
  }

  function ItemsText(items: seq<Item>): string
    decreases items, 0
  {
    if items == [] then "" else ItemText(items[0]) + ItemsText(items[1..])
  }

  // ---- Their meaning

  /** The prefixes that are bound, and to what; the empty prefix is the default. */
  type Scope = map<string, string>

  const OUTSIDE: Scope := map["xml" := XML_NS, "" := ""]

  function KeyOf(name: Name): string {
    if name.prefix == "xmlns" then name.local else ""
  }

  /** What the declarations among some attributes bind. */
  function DeclaredBy(attributes: seq<Spelled>): Scope
    requires AreSpelled(attributes)
  {
    if attributes == [] then map[]
    else
      var last := attributes[|attributes| - 1];
      var front := DeclaredBy(attributes[..|attributes| - 1]);
      if Declares(last.name) then front[KeyOf(last.name) := BitsMeaning(last.value)] else front
  }

  /** The other attributes; one without a prefix is in no namespace, whatever the default is. */
  function ResolvedBy(attributes: seq<Spelled>, scope: Scope): seq<Attribute>
    requires AreSpelled(attributes)
  {
    if attributes == [] then []
    else
      var last := attributes[|attributes| - 1];
      var front := ResolvedBy(attributes[..|attributes| - 1], scope);
      if Declares(last.name) then front
      else
        front + [AttributeOf(last, scope)]
  }

  function AttributeOf(a: Spelled, scope: Scope): Attribute
    requires IsSpelled(a)
  {
    Attribute(if a.name.prefix in scope && a.name.prefix != "" then scope[a.name.prefix] else "", a.name.local,
      BitsMeaning(a.value))
  }

  /** Texts side by side are one, and an empty one is none. */
  function Merge(nodes: seq<Node>): seq<Node> {
    if nodes == [] then []
    else
      var rest := Merge(nodes[1..]);
      if nodes[0].Elem? then [nodes[0]] + rest
      else if nodes[0].text == "" then rest
      else if rest != [] && rest[0].Text? then [Text(nodes[0].text + rest[0].text)] + rest[1..]
      else [nodes[0]] + rest
  }

  function ScopeIn(scope: Scope, attributes: seq<Spelled>): Scope
    requires AreSpelled(attributes)
  {
    scope + DeclaredBy(attributes)
  }

  /** What an item adds to its element. */
  function Meaning(item: Item, scope: Scope): seq<Node>
    requires IsSpelledItem(item)
    decreases item, 1
  {
    match item
    case Chars(bits) => [Text(BitsMeaning(bits))]
    case CDataSection(text) => [Text(text)]
    case Comment(_) => []
    case Instruction(_) => []
    case Tagged(name, attributes, _, content, _) =>
      var inner := ScopeIn(scope, attributes);
      [Elem(if name.prefix in inner then inner[name.prefix] else "", name.local, ResolvedBy(attributes, inner),
        Merge(Meanings(content, inner)))]
  }

  function Meanings(items: seq<Item>, scope: Scope): seq<Node>
    requires AreSpelledItems(items)
    decreases items, 0
  {
    if items == [] then [] else Meaning(items[0], scope) + Meanings(items[1..], scope)
  }

  // ---- Well-formed documents

  predicate Contains(s: string, marker: string) {
    exists i :: 0 <= i <= |s| && marker <= s[i..]
  }

  /** A comment that the reader ends where it ends: it begins with neither `>` nor `->`. */
  predicate IsComment(text: string) {
    !Contains(text, "-->") && !(">" <= text) && !("->" <= text)
  }

  predicate IsInstruction(text: string) {
    !Contains(text, "?>") && !(">" <= text)
  }

  /** Content spelled as XML asks; whether it may stand where it does is another matter. */
  predicate IsSpelledItem(item: Item)
    decreases item, 1
  {
    match item
    case Chars(bits) => AreBits(bits)
    case CDataSection(text) => !Contains(text, "]]>")
    case Comment(text) => IsComment(text)
    case Instruction(text) => IsInstruction(text)
    case Tagged(name, attributes, gap, content, endGap) =>
      && IsName(name) && AreSpelled(attributes) && AreSpaces(gap) && AreSpelledItems(content)
      && if endGap.None? then content == [] else AreSpaces(endGap.value)
  }

  /** Runs of characters are separated by something else. */
  predicate AreSpelledItems(items: seq<Item>)
    decreases items, 0
  {
    items == [] ||
    (IsSpelledItem(items[0]) && AreSpelledItems(items[1..]) && (items[0].Chars? && |items| > 1 ==> !items[1].Chars?))
  }

  /** A declaration that binds neither a reserved prefix or name, nor a prefix to nothing. */
  predicate IsAllowed(a: Spelled)
    requires IsSpelled(a)
  {
    var key, value := KeyOf(a.name), BitsMeaning(a.value);
    key != "xmlns" && value != XMLNS_NS && (key == "xml" <==> value == XML_NS) && (key != "" ==> value != "")
  }

  /** A start tag that may stand in a scope. */
  predicate IsTagIn(name: Name, attributes: seq<Spelled>, scope: Scope)
    requires AreSpelled(attributes)
  {
    && AreDeclared(attributes) && AreBound(attributes, ScopeIn(scope, attributes))
    && name.prefix in ScopeIn(scope, attributes)
  }

  /**
   * Content that may stand in a scope, nested at most `depth` deep; no name that needs an end tag ends in
   * white space of the language.
   */
  predicate IsItemIn(item: Item, scope: Scope, depth: int)
    requires IsSpelledItem(item)
    decreases item, 1
  {
    item.Tagged? ==>
      && depth >= 1 && IsTagIn(item.name, item.attributes, scope)
      && (item.endGap.Some? ==> !IsJsSpace(item.name.local[|item.name.local| - 1]))
      && AreItemsIn(item.content, ScopeIn(scope, item.attributes), depth - 1)
  }

  predicate AreItemsIn(items: seq<Item>, scope: Scope, depth: int)
    requires AreSpelledItems(items)
    decreases items, 0
  {
    items == [] || (IsItemIn(items[0], scope, depth) && AreItemsIn(items[1..], scope, depth))
  }

  // ---- Declarations and attributes, read

  lemma {:induction false} NamesAreDistinct(attributes: seq<Spelled>, i: nat, j: nat)
    requires AreSpelled(attributes) && i < |attributes| && j < |attributes|
    ensures NameText(attributes[i].name) == NameText(attributes[j].name) ==> attributes[i].name == attributes[j].name
  {
    hide NameText;
    NameIsRead(attributes[i].name);
    NameIsRead(attributes[j].name);
  }

  lemma {:induction false} DeclarationIsRead(declared: Declared, a: Spelled)
    requires IsSpelled(a)
    ensures var r := Declare(declared, NameText(a.name), BitsMeaning(a.value));
      if Declares(a.name) && !IsAllowed(a) then r.Err?
      else r == Ok(if Declares(a.name) then declared[KeyOf(a.name) := BitsMeaning(a.value)] else declared)
  {
    hide BitsMeaning, IsDeclaration, SplitQName, IsNcName;
    NameIsRead(a.name);
    XmlNamesDiffer();
    if a.name.prefix == "xmlns" {
      assert NameText(a.name) == "xmlns" + ":" + a.name.local;
      assert NameText(a.name) != "xmlns" by {
        assert |NameText(a.name)| > 5;
      }
    }
  }

  lemma {:induction false} XmlNamesDiffer()
    ensures XML_NS != XMLNS_NS && XML_NS != "" && XMLNS_NS != ""
  {
    assert |XMLNS_NS| == 29 && |XML_NS| == 36;
  }

  /** No name twice, and every declaration an allowed one. */
  predicate AreDeclared(attributes: seq<Spelled>)
    requires AreSpelled(attributes)
  {
    && (forall i, j :: 0 <= i < j < |attributes| ==> attributes[i].name != attributes[j].name)
    && (forall i :: 0 <= i < |attributes| && Declares(attributes[i].name) ==> IsAllowed(attributes[i]))
  }

  lemma {:induction false} RepeatedName(attributes: seq<Spelled>, n: nat)
    requires AreSpelled(attributes) && n < |attributes|
    ensures PairsOf(attributes)[n].0 in NamesOf(PairsOf(attributes)[..n]) <==>
      exists i :: 0 <= i < n && attributes[i].name == attributes[n].name
  {
    hide NameText, BitsMeaning;
    var pairs := PairsOf(attributes);
    forall i | 0 <= i < n
      ensures pairs[i].0 == pairs[n].0 <==> attributes[i].name == attributes[n].name
    {
      NamesAreDistinct(attributes, i, n);
    }
    if i :| 0 <= i < n && attributes[i].name == attributes[n].name {
      assert pairs[..n][i] in pairs[..n];
    }
  }

  /** The prefixes a start tag declares are those its attributes spell, or it is refused. */
  lemma {:induction false} DeclarationsAreRead(attributes: seq<Spelled>)
    requires AreSpelled(attributes)
    ensures var r := Declarations(PairsOf(attributes));
      if AreDeclared(attributes) then r == Ok(DeclaredBy(attributes)) else r.Err?
  {
    hide IsAllowed, Declares, Declare, BitsMeaning, NameText, IsSpelled, NamesOf;
    if attributes != [] {
      var n := |attributes| - 1;
      var pairs := PairsOf(attributes);
      var front := attributes[..n];
      DeclarationsAreRead(front);
      assert pairs[..n] == PairsOf(front);
      DeclarationIsRead(DeclaredBy(front), attributes[n]);
      RepeatedName(attributes, n);
      assert AreDeclared(attributes) <==>
          AreDeclared(front) && (Declares(attributes[n].name) ==> IsAllowed(attributes[n]))
          && !(exists i :: 0 <= i < n && attributes[i].name == attributes[n].name) by {
        DeclaredStep(attributes, n);
      }
    }
  }

  lemma {:induction false} DeclaredStep(attributes: seq<Spelled>, n: nat)
    requires AreSpelled(attributes) && n == |attributes| - 1
    ensures AreDeclared(attributes) <==>
      (AreDeclared(attributes[..n]) && (Declares(attributes[n].name) ==> IsAllowed(attributes[n]))
       && !(exists i :: 0 <= i < n && attributes[i].name == attributes[n].name))
  {
    hide IsAllowed, Declares, IsSpelled;
    var front := attributes[..n];
    assert forall i :: 0 <= i < n ==> front[i] == attributes[i];
  }

  lemma {:induction false} PrefixIsResolved(stack: seq<Open>, own: Declared, prefix: string)
    ensures var scope := ScopeMap(stack) + own;
      ResolvePrefix(stack, own, prefix) == if prefix in scope then Ok(scope[prefix]) else Err(Malformed)
  {
    hide LookupPrefix;
    LookupIsScopeMap(stack, own, prefix);
  }

  lemma {:induction false} AttributeIsResolved(stack: seq<Open>, own: Declared, a: Spelled)
    requires IsSpelled(a)
    ensures var scope := ScopeMap(stack) + own;
      var r := ResolveAttribute(stack, own, NameText(a.name), BitsMeaning(a.value));
      if a.name.prefix == "" || a.name.prefix in scope then r == Ok(AttributeOf(a, scope)) else r.Err?
  {
    hide BitsMeaning, SplitQName, ResolvePrefix, NameText, IsName, ScopeMap;
    NameIsRead(a.name);
    if a.name.prefix != "" {
      PrefixIsResolved(stack, own, a.name.prefix);
    }
  }

  /** An attribute without a prefix is in no namespace, whatever default the scope declares. */
  lemma {:induction false} UnprefixedIsInNone(stack: seq<Open>, own: Declared, local: string, value: string)
    requires IsNcName(local)
    ensures ResolveAttribute(stack, own, local, value) == Ok(Attribute("", local, value))
  {
    SplitBare(local);
  }

  lemma {:induction false} OneMoreDistinct(a: seq<Attribute>, last: Attribute)
    ensures DistinctNames(a + [last]) <==> DistinctNames(a) && (last.namespace, last.name) !in ExpandedNames(a)
  {
    var all := a + [last];
    assert all[|a|] == last && forall i :: 0 <= i < |a| ==> all[i] == a[i];
    if (last.namespace, last.name) in ExpandedNames(a) {
      var b :| b in a && (b.namespace, b.name) == (last.namespace, last.name);
      var i :| 0 <= i < |a| && a[i] == b;
      assert all[i] == b && all[|a|] == last;
    }
  }

  /** Every prefix of an attribute is bound, and no two attributes have one expanded name. */
  predicate AreBound(attributes: seq<Spelled>, scope: Scope)
    requires AreSpelled(attributes)
  {
    && (forall i :: 0 <= i < |attributes| && !Declares(attributes[i].name) ==>
         attributes[i].name.prefix == "" || attributes[i].name.prefix in scope)
    && DistinctNames(ResolvedBy(attributes, scope))
  }

  lemma {:induction false} BoundStep(attributes: seq<Spelled>, scope: Scope, n: nat)
    requires AreSpelled(attributes) && n == |attributes| - 1
    ensures var last, front := attributes[n], ResolvedBy(attributes[..n], scope);
      AreBound(attributes, scope) <==>
        (AreBound(attributes[..n], scope)
         && (!Declares(last.name) ==>
              && (last.name.prefix == "" || last.name.prefix in scope)
              && var a := AttributeOf(last, scope); (a.namespace, a.name) !in ExpandedNames(front)))
  {
    hide Declares, IsSpelled, DistinctNames, ExpandedNames, BitsMeaning, AttributeOf;
    assert forall i :: 0 <= i < n ==> attributes[..n][i] == attributes[i];
    if !Declares(attributes[n].name) {
      OneMoreDistinct(ResolvedBy(attributes[..n], scope), AttributeOf(attributes[n], scope));
    }
  }

  /** The attributes of a start tag are resolved as its scope says, or it is refused. */
  lemma {:induction false} AttributesAreResolved(stack: seq<Open>, own: Declared, attributes: seq<Spelled>)
    requires AreSpelled(attributes)
    ensures var r, scope := ResolveAttributes(stack, own, PairsOf(attributes)), ScopeMap(stack) + own;
      if AreBound(attributes, scope) then r == Ok(ResolvedBy(attributes, scope)) else r.Err?
  {
    hide Declares, ResolveAttribute, BitsMeaning, NameText, IsSpelled, ScopeMap, DistinctNames, IsDeclaration, AreBound;
    hide AttributeOf, ExpandedNames;
    if attributes == [] {
      NothingBound(ScopeMap(stack) + own);
    } else {
      var n := |attributes| - 1;
      var scope := ScopeMap(stack) + own;
      var last, pairs := attributes[n], PairsOf(attributes);
      assert pairs[..n] == PairsOf(attributes[..n]);
      SpelledNameIsRead(last);
      AttributeIsResolved(stack, own, last);
      BoundStep(attributes, scope, n);
      AttributesAreResolved(stack, own, attributes[..n]);
    }
  }

  lemma {:induction false} NothingBound(scope: Scope)
    ensures AreBound([], scope) && ResolvedBy([], scope) == []
  {
  }

  lemma {:induction false} SpelledNameIsRead(a: Spelled)
    requires IsSpelled(a)
    ensures IsDeclaration(NameText(a.name)) <==> Declares(a.name)
  {
    NameIsRead(a.name);
  }

  // ---- Adding to the inmost element

  function AppendNode(children: seq<Node>, node: Node): seq<Node> {
    if node == Text("") then children else Append(children, node)
  }

  function AppendAll(children: seq<Node>, nodes: seq<Node>): seq<Node> {
    if nodes == [] then children else AppendNode(AppendAll(children, nodes[..|nodes| - 1]), nodes[|nodes| - 1])
  }

  lemma {:induction false} AppendAllTwice(children: seq<Node>, a: seq<Node>, b: seq<Node>)
    ensures AppendAll(AppendAll(children, a), b) == AppendAll(children, a + b)
  {
    hide AppendNode;
    if b == [] {
      assert a + b == a;
    } else {
      var n := |b| - 1;
      AppendAllTwice(children, a, b[..n]);
      assert (a + b)[..|a| + n] == a + b[..n];
    }
  }

  lemma {:induction false} TextGoesFirst(text: string, nodes: seq<Node>)
    requires text != ""
    ensures Merge([Text(text)] + nodes) ==
      var rest := Merge(nodes);
      if rest != [] && rest[0].Text? then [Text(text + rest[0].text)] + rest[1..] else [Text(text)] + rest
  {
    assert ([Text(text)] + nodes)[1..] == nodes;
  }

  /** Adding one node at the end of merged ones merges it with the last. */
  lemma {:induction false} MergeOneMore(nodes: seq<Node>, last: Node)
    ensures Merge(nodes + [last]) == AppendNode(Merge(nodes), last)
  {
    if nodes == [] {
      assert nodes + [last] == [last] && [last][1..] == [];
    } else {
      MergeOneMore(nodes[1..], last);
      assert (nodes + [last])[1..] == nodes[1..] + [last];
      HeadStays(nodes[0], Merge(nodes[1..]), last);
    }
  }

  /** What `Merge` does with its first node, given the rest. */
  function Head(first: Node, rest: seq<Node>): seq<Node> {
    if first.Elem? then [first] + rest
    else if first.text == "" then rest
    else if rest != [] && rest[0].Text? then [Text(first.text + rest[0].text)] + rest[1..]
    else [first] + rest
  }

  lemma {:induction false} HeadStays(first: Node, rest: seq<Node>, last: Node)
    ensures Head(first, AppendNode(rest, last)) == AppendNode(Head(first, rest), last)
  {
    if last == Text("") {
    } else if rest == [] {
      assert [first] + [] == [first] && [first][..0] == [];
    } else if last.Text? && rest[|rest| - 1].Text? {
      if |rest| == 1 {
        JoinsOne(first, rest[0], last);
        assert rest == [rest[0]];
      } else {
        JoinsLast(first, rest, last);
      }
    } else {
      StandsAtEnd(first, rest, last);
    }
  }

  lemma {:induction false} JoinsOne(first: Node, only: Node, last: Node)
    requires only.Text? && last.Text? && last.text != ""
    ensures Head(first, AppendNode([only], last)) == AppendNode(Head(first, [only]), last)
  {
    var joined := Text(only.text + last.text);
    assert [only][..0] == [] && [only][1..] == [] && [joined][1..] == [];
    assert AppendNode([only], last) == [joined];
    if first.Elem? {
      assert ([first] + [only])[..1] == [first];
    } else if first.text != "" {
      assert first.text + (only.text + last.text) == (first.text + only.text) + last.text;
      assert [Text(first.text + only.text)][..0] == [];
    }
  }

  lemma {:induction false} JoinsLast(first: Node, rest: seq<Node>, last: Node)
    requires |rest| > 1 && rest[|rest| - 1].Text? && last.Text? && last.text != ""
    ensures Head(first, AppendNode(rest, last)) == AppendNode(Head(first, rest), last)
  {
    var n := |rest| - 1;
    var joined := Text(rest[n].text + last.text);
    var grown := rest[..n] + [joined];
    assert grown[0] == rest[0] && grown[1..] == rest[1..n] + [joined];
    assert rest[1..][..n - 1] == rest[1..n];
    if first.Elem? || (first.text != "" && !rest[0].Text?) {
      assert ([first] + rest)[..n + 1] == [first] + rest[..n];
    } else if first.text != "" {
      var head := [Text(first.text + rest[0].text)];
      assert (head + rest[1..])[..n] == head + rest[1..n];
    }
  }

  lemma {:induction false} StandsAtEnd(first: Node, rest: seq<Node>, last: Node)
    requires rest != [] && last != Text("") && !(last.Text? && rest[|rest| - 1].Text?)
    ensures Head(first, AppendNode(rest, last)) == AppendNode(Head(first, rest), last)
  {
    var grown := rest + [last];
    assert grown[0] == rest[0] && grown[1..] == rest[1..] + [last];
    var head := Head(first, rest);
    assert first.Text? && last.Text? ==> head[|head| - 1].Elem?;
  }

  /** Adding nodes one after another merges them. */
  lemma {:induction false} AppendAllMerges(nodes: seq<Node>)
    ensures AppendAll([], nodes) == Merge(nodes)
  {
    hide AppendNode;
    if nodes != [] {
      var n := |nodes| - 1;
      AppendAllMerges(nodes[..n]);
      MergeOneMore(nodes[..n], nodes[n]);
      assert nodes == nodes[..n] + [nodes[n]];
    }
  }

  /** `state` with `nodes` added to the inmost open element. */
  function WithNodes(state: State, nodes: seq<Node>): State
    requires state.stack != []
  {
    var n := |state.stack| - 1;
    var top := state.stack[n];
    state.(stack := state.stack[n := top.(element := top.element.(children := AppendAll(top.element.children, nodes)))])
  }

  lemma {:induction false} WithNodesTwice(state: State, a: seq<Node>, b: seq<Node>)
    requires state.stack != []
    ensures WithNodes(WithNodes(state, a), b) == WithNodes(state, a + b)
  {
    AppendAllTwice(state.stack[|state.stack| - 1].element.children, a, b);
  }

  lemma {:induction false} WithNoNodes(state: State)
    requires state.stack != []
    ensures WithNodes(state, []) == state
  {
  }

  lemma {:induction false} WithOneNode(state: State, node: Node)
    requires state.stack != []
    ensures node.Elem? ==> WithNodes(state, [node]) == Attach(state, node)
    ensures node.Text? ==> AddText(state, node.text) == Ok(WithNodes(state, [node]))
  {
    var children := state.stack[|state.stack| - 1].element.children;
    assert [node][..0] == [];
    assert AppendAll(children, [node]) == AppendNode(children, node);
    if node == Text("") {
      assert WithNodes(state, [node]).stack == state.stack;
    } else if node.Text? {
      assert node == Text(node.text);
    }
  }

  lemma {:induction false} ScopeIgnoresContent(a: seq<Open>, b: seq<Open>)
    requires |a| == |b| && forall i :: 0 <= i < |a| ==> a[i].declared == b[i].declared
    ensures ScopeMap(a) == ScopeMap(b)
  {
    if a != [] {
      ScopeIgnoresContent(a[..|a| - 1], b[..|b| - 1]);
    }
  }

  lemma {:induction false} SameScope(state: State, nodes: seq<Node>)
    requires state.stack != []
    ensures ScopeMap(WithNodes(state, nodes).stack) == ScopeMap(state.stack)
    ensures |WithNodes(state, nodes).stack| == |state.stack|
  {
    ScopeIgnoresContent(WithNodes(state, nodes).stack, state.stack);
  }

  // ---- Sections that are no elements

  /** A marker of two equal characters and a last other one, or of two different ones. */
  predicate IsMarker(marker: string) {
    marker == "]]>" || marker == "-->" || marker == "?>"
  }

  /** The first marker after a head that ends none is the one that ends the text. */
  lemma {:induction false} MarkerIsFirst(head: string, text: string, marker: string, k: string)
    requires IsMarker(marker) && !Contains(text, marker)
    requires forall i :: 0 <= i < |head| ==> !(marker <= (head + (text + (marker + k)))[i..])
    ensures Find(head + (text + (marker + k)), marker) == |head| + |text|
  {
    var s := head + (text + (marker + k));
    var n := |head| + |text|;
    assert s[n..] == marker + k;
    forall i | |head| <= i < n
      ensures !(marker <= s[i..])
    {
      NotBefore(head, text, marker, k, i - |head|);
    }
    FindAt(s, marker, n);
  }

  lemma {:induction false} NotBefore(head: string, text: string, marker: string, k: string, j: nat)
    requires IsMarker(marker) && !Contains(text, marker) && j < |text|
    ensures !(marker <= (head + (text + (marker + k)))[|head| + j..])
  {
    var s := head + (text + (marker + k));
    var at, m := |head| + j, |marker|;
    if j + m <= |text| {
      assert s[at..at + m] == text[j..j + m];
      assert !(marker <= text[j..]);
      assert text[j..][..m] == text[j..j + m] && s[at..][..m] == s[at..at + m];
    } else {
      assert s[at..][m - 1] == marker[j + m - 1 - |text|] != '>';
      assert marker[m - 1] == '>';
    }
  }

  lemma {:induction false} SkipIs(head: string, text: string, marker: string, k: string)
    requires IsMarker(marker) && !Contains(text, marker)
    requires forall i :: 0 <= i < |head| ==> !(marker <= (head + (text + (marker + k)))[i..])
    ensures SkipTo(head + (text + (marker + k)), marker) == Ok(k)
  {
    MarkerIsFirst(head, text, marker, k);
    assert (head + (text + (marker + k)))[|head| + |text| + |marker|..] == k;
  }

  lemma {:induction false} CommentHead(text: string, k: string)
    ensures (!(">" <= text) && !("->" <= text)) <==>
      forall i :: 0 <= i < 4 ==> !("-->" <= ("<!--" + (text + ("-->" + k)))[i..])
  {
    var s := "<!--" + (text + ("-->" + k));
    assert s[0] == '<' && s[1] == '!' && s[2] == '-' && s[3] == '-';
    var more := text + ("-->" + k);
    assert s[4] == more[0] && s[5] == more[1];
    assert "-->" <= s[2..] <==> s[4] == '>' by {
      assert s[2..][..3] == [s[2], s[3], s[4]];
    }
    assert "-->" <= s[3..] <==> s[4] == '-' && s[5] == '>' by {
      assert s[3..][..3] == [s[3], s[4], s[5]];
    }
    assert !("-->" <= s[0..]) && !("-->" <= s[1..]) by {
      assert s[0..][0] == '<' && s[1..][0] == '!';
    }
    assert ">" <= text <==> text != "" && text[0] == '>';
    assert "->" <= text <==> |text| > 1 && text[0] == '-' && text[1] == '>';
    if |text| <= 1 {
      assert more[|text|] == '-' && more[|text| + 1] == '-';
    }
  }

  lemma {:induction false} RunComment(text: string, k: string, state: State, maxDepth: nat)
    requires IsComment(text)
    ensures Run("<!--" + (text + ("-->" + k)), state, maxDepth) == Run(k, state, maxDepth)
  {
    hide Contains;
    var s := "<!--" + (text + ("-->" + k));
    CommentHead(text, k);
    SkipIs("<!--", text, "-->", k);
    hide SkipTo;
    assert s[0] == '<' && s[1] == '!' && "<!--" <= s;
    assert !("<?" <= s) by {
      assert "<?"[1] == '?';
    }
    RunFromMarkup(s, state, maxDepth);
  }

  lemma {:induction false} InstructionHead(text: string, k: string)
    requires !(">" <= text)
    ensures forall i :: 0 <= i < 2 ==> !("?>" <= ("<?" + (text + ("?>" + k)))[i..])
  {
    var s := "<?" + (text + ("?>" + k));
    assert s[0..][0] == '<' && s[1..][1] == s[2];
    assert s[2] == if text == "" then '?' else text[0];
    assert text != "" && text[0] == '>' ==> ">" <= text;
    assert "?>"[1] == '>' && "?>"[0] == '?';
  }

  lemma {:induction false} RunInstruction(text: string, k: string, state: State, maxDepth: nat)
    requires IsInstruction(text)
    ensures Run("<?" + (text + ("?>" + k)), state, maxDepth) == Run(k, state, maxDepth)
  {
    hide Contains;
    var s := "<?" + (text + ("?>" + k));
    InstructionHead(text, k);
    SkipIs("<?", text, "?>", k);
    hide SkipTo;
    assert s[0] == '<' && "<?" <= s;
    RunFromMarkup(s, state, maxDepth);
  }

  lemma {:induction false} CDataStarts(after: string)
    ensures var s := "<![CDATA[" + after;
      && s[0] == '<' && s[9..] == after && "<![CDATA[" <= s && !("<?" <= s) && !("<!--" <= s)
  {
    var s := "<![CDATA[" + after;
    assert s[1] == '!' && s[2] == '[' && "<?"[1] == '?' && "<!--"[2] == '-';
  }

  lemma {:induction false} MarkupIsCData(after: string, state: State, maxDepth: nat)
    ensures Markup("<![CDATA[" + after, state, maxDepth) == CData(after, state)
    ensures ("<![CDATA[" + after)[0] == '<'
  {
    hide CData;
    CDataStarts(after);
  }

  lemma {:induction false} CDataIs(text: string, k: string, state: State)
    requires !Contains(text, "]]>") && state.stack != []
    ensures CData(text + ("]]>" + k), state) == Ok((k, WithNodes(state, [Text(text)])))
  {
    hide Contains, Find, WithNodes, AddText;
    var after := text + ("]]>" + k);
    assert "" + after == after;
    MarkerIsFirst("", text, "]]>", k);
    assert after[..|text|] == text && after[|text| + 3..] == k;
    WithOneNode(state, Text(text));
  }

  /** A CDATA section is its text, as it stands. */
  lemma {:induction false} RunCData(text: string, k: string, state: State, maxDepth: nat)
    requires !Contains(text, "]]>") && state.stack != []
    ensures Run("<![CDATA[" + (text + ("]]>" + k)), state, maxDepth) == Run(k, WithNodes(state, [Text(text)]), maxDepth)
  {
    hide Contains, WithNodes, CData, Markup, Run;
    var after := text + ("]]>" + k);
    MarkupIsCData(after, state, maxDepth);
    CDataIs(text, k, state);
    RunFromMarkup("<![CDATA[" + after, state, maxDepth);
  }

  /**
   * A CDATA section and the same text with its characters escaped add the same text, wherever they
   * stand in an element.
   */
  lemma {:induction false} CDataIsText(text: string, bits: seq<Bit>, k: string, state: State, maxDepth: nat)
    requires !Contains(text, "]]>") && state.stack != [] && k != "" && k[0] == '<'
    requires AreBits(bits) && BitsMeaning(bits) == text
    ensures Run("<![CDATA[" + (text + ("]]>" + k)), state, maxDepth) == Run(BitsText(bits) + k, state, maxDepth)
  {
    RunCData(text, k, state, maxDepth);
    RunChars(bits, k, state, maxDepth);
  }

  lemma {:induction false} RunChars(bits: seq<Bit>, k: string, state: State, maxDepth: nat)
    requires AreBits(bits) && state.stack != [] && k != "" && k[0] == '<'
    ensures Run(BitsText(bits) + k, state, maxDepth) == Run(k, WithNodes(state, [Text(BitsMeaning(bits))]), maxDepth)
  {
    hide BitMeaning, BitText, IsBit;
    BitsDecode(bits);
    BitsAreInert(bits, '"');
    WithOneNode(state, Text(BitsMeaning(bits)));
    if BitsText(bits) == "" {
      NoBits(bits);
      assert BitsText(bits) + k == k;
    } else {
      RunText(BitsText(bits), BitsMeaning(bits), k, state, maxDepth);
    }
  }

  lemma {:induction false} NoBits(bits: seq<Bit>)
    requires BitsText(bits) == ""
    ensures bits == []
  {
    if bits != [] {
      BitIsNotEmpty(bits[0]);
    }
  }

  lemma {:induction false} BitIsNotEmpty(bit: Bit)
    ensures BitText(bit) != ""
  {
    hide DigitsOf, Zeros;
  }

  // ---- Tags

  function OpenedBy(name: Name, attributes: seq<Spelled>, scope: Scope): Element
    requires AreSpelled(attributes)
  {
    var inner := ScopeIn(scope, attributes);
    Elem(if name.prefix in inner then inner[name.prefix] else "", name.local, ResolvedBy(attributes, inner), [])
  }

  lemma {:induction false} AfterNameStops(attributes: seq<Spelled>, gap: string, selfClosing: bool, k: string)
    requires AreSpelled(attributes) && AreSpaces(gap)
    ensures var rest := AllSpelled(attributes) + (gap + (TagEnd(selfClosing) + k));
      rest != "" && !InClass(rest[0], TagName)
  {
    hide AfterName;
    var rest := AllSpelled(attributes) + (gap + (TagEnd(selfClosing) + k));
    if attributes != [] {
      var lead := attributes[0].lead;
      assert IsSpelled(attributes[0]) && lead[0] in lead;
      assert rest[0] == AllSpelled(attributes)[0] == SpelledText(attributes[0])[0] == lead[0];
    } else if gap != "" {
      assert rest[0] == gap[0] && gap[0] in gap;
    } else {
      assert rest[0] == TagEnd(selfClosing)[0];
    }
  }

  /** Where a start tag is read: there is room for it, and no root before it. */
  predicate HasRoom(state: State, maxDepth: nat) {
    |state.stack| < maxDepth && (state.stack == [] ==> state.root.None?)
  }

  function StartedBy(name: Name, attributes: seq<Spelled>, selfClosing: bool, state: State): State
    requires AreSpelled(attributes)
  {
    var e := OpenedBy(name, attributes, ScopeMap(state.stack));
    if selfClosing then Attach(state, e)
    else state.(stack := state.stack + [Open(NameText(name), e, DeclaredBy(attributes))])
  }

  /** A start tag opens, or leaves, the element it spells, or is refused when it may not stand there. */
  lemma {:induction false} OpensElement(
    name: Name, attributes: seq<Spelled>, selfClosing: bool, state: State, k: string, maxDepth: nat)
    requires IsName(name) && AreSpelled(attributes)
    ensures var r := OpenElement(state, NameText(name), Tag(PairsOf(attributes), selfClosing, k), maxDepth);
      if HasRoom(state, maxDepth) && IsTagIn(name, attributes, ScopeMap(state.stack)) then
        r == Ok(StartedBy(name, attributes, selfClosing, state))
      else r.Err?
  {
    hide AreDeclared, AreBound, Declarations, ResolveAttributes, SplitQName, ResolvePrefix, NameText, ResolvedBy;
    hide DeclaredBy, ScopeMap, IsName, IsSpelled, Attach;
    DeclarationsAreRead(attributes);
    NameIsRead(name);
    PrefixIsResolved(state.stack, DeclaredBy(attributes), name.prefix);
    AttributesAreResolved(state.stack, DeclaredBy(attributes), attributes);
  }

  lemma {:induction false} StartTextIs(name: Name, attributes: seq<Spelled>, gap: string, selfClosing: bool, k: string)
    ensures StartText(name, attributes, gap, selfClosing) + k ==
      "<" + (NameText(name) + (AllSpelled(attributes) + (gap + (TagEnd(selfClosing) + k))))
  {
    hide NameText, AllSpelled, TagEnd;
    AppendAssociative(gap, TagEnd(selfClosing), k);
    AppendAssociative(AllSpelled(attributes), gap + TagEnd(selfClosing), k);
    AppendAssociative(NameText(name), AllSpelled(attributes) + (gap + TagEnd(selfClosing)), k);
    AppendAssociative("<", NameText(name) + (AllSpelled(attributes) + (gap + TagEnd(selfClosing))), k);
  }

  lemma {:induction false} RunStart(
    name: Name, attributes: seq<Spelled>, gap: string, selfClosing: bool, state: State, k: string, maxDepth: nat)
    requires IsName(name) && AreSpelled(attributes) && AreSpaces(gap)
    ensures var r := Run(StartText(name, attributes, gap, selfClosing) + k, state, maxDepth);
      if HasRoom(state, maxDepth) && IsTagIn(name, attributes, ScopeMap(state.stack)) then
        r == Run(k, StartedBy(name, attributes, selfClosing, state), maxDepth)
      else r.Err?
  {
    hide NameText, AllSpelled, TagEnd, OpenElement, StartedBy, ReadAttributes, Markup, IsTagIn, HasRoom, IsName, IsSpelled;
    var qname := NameText(name);
    var rest := AllSpelled(attributes) + (gap + (TagEnd(selfClosing) + k));
    var tag := Tag(PairsOf(attributes), selfClosing, k);
    NameIsRead(name);
    AttributesAreRead(attributes, gap, selfClosing, k);
    AfterNameStops(attributes, gap, selfClosing, k);
    MarkupStartTag(qname, rest, tag, state, maxDepth);
    OpensElement(name, attributes, selfClosing, state, k, maxDepth);
    StartTextIs(name, attributes, gap, selfClosing, k);
    RunFromMarkup("<" + (qname + rest), state, maxDepth);
  }

  lemma {:induction false} SpacesAreTrimmed(s: string, spaces: string)
    requires AreSpaces(spaces) && (s == "" || !IsJsSpace(s[|s| - 1]))
    ensures TrimEnd(s + spaces) == s
  {
    if spaces == "" {
      assert s + spaces == s;
    } else {
      var n := |spaces| - 1;
      SpacesAreTrimmed(s, spaces[..n]);
      assert (s + spaces)[..|s| + n] == s + spaces[..n];
      assert spaces[n] in spaces;
    }
  }

  lemma {:induction false} ClosesIt(qname: string, state: State, outer: State, e: Element, declared: Declared)
    requires state == outer.(stack := outer.stack + [Open(qname, e, declared)])
    ensures CloseElement(state, qname) == Ok(Attach(outer, e))
  {
    hide Attach;
    assert state.stack[..|state.stack| - 1] == outer.stack;
    assert outer == state.(stack := outer.stack);
  }

  lemma {:induction false} EndTextIs(name: Name, endGap: string, k: string)
    requires IsName(name) && AreSpaces(endGap)
    ensures EndText(name, endGap) + k == "</" + ((NameText(name) + endGap) + (">" + k))
    ensures '>' !in NameText(name) + endGap
  {
    hide NameText;
    NameIsRead(name);
    assert forall c :: c in NameText(name) ==> InClass(c, TagName);
  }

  lemma {:induction false} ClosesNothing(qname: string, state: State, s: string)
    requires state.stack != [] && state.stack[|state.stack| - 1].qname == qname
    requires qname != "" && IsJsSpace(qname[|qname| - 1])
    ensures CloseElement(state, TrimEnd(s)).Err?
  {
    hide IsJsSpace, Attach;
    TrimmedEnd(s);
  }

  /** An end tag closes the element of its name, but for a name that ends in white space of the language. */
  lemma {:induction false} RunEnd(
    name: Name, endGap: string, state: State, outer: State, e: Element, declared: Declared, k: string, maxDepth: nat)
    requires IsName(name) && AreSpaces(endGap)
    requires state == outer.(stack := outer.stack + [Open(NameText(name), e, declared)])
    ensures var r := Run(EndText(name, endGap) + k, state, maxDepth);
      if IsJsSpace(name.local[|name.local| - 1]) then r.Err? else r == Run(k, Attach(outer, e), maxDepth)
  {
    hide NameText, Attach, Markup, CloseElement, EndText, AreSpaces, IsJsSpace, TrimEnd, Run;
    NameIsRead(name);
    EndTextIs(name, endGap, k);
    EndTextStarts(name, endGap, k);
    MarkupEndTag(NameText(name) + endGap, k, state, maxDepth);
    if IsJsSpace(name.local[|name.local| - 1]) {
      ClosesNothing(NameText(name), state, NameText(name) + endGap);
    } else {
      SpacesAreTrimmed(NameText(name), endGap);
      ClosesIt(NameText(name), state, outer, e, declared);
    }
    RunFromMarkup(EndText(name, endGap) + k, state, maxDepth);
  }

  // ---- Whole items

  lemma {:induction false} ItemStarts(item: Item)
    requires IsSpelledItem(item) && !item.Chars?
    ensures ItemText(item) != "" && ItemText(item)[0] == '<'
  {
    hide NameText, AllSpelled, TagEnd, EndText;
    match item {
      case CDataSection(_) =>
      case Comment(_) =>
      case Instruction(_) =>
      case Tagged(name, attributes, gap, _, endGap) =>
        assert StartText(name, attributes, gap, endGap.None?)[0] == '<';
    }
  }

  lemma {:induction false} TaggedText(item: Item, k: string)
    requires item.Tagged?
    ensures var Tagged(name, attributes, gap, content, endGap) := item;
      ItemText(item) + k ==
        if endGap.None? then StartText(name, attributes, gap, true) + k
        else StartText(name, attributes, gap, false) + (ItemsText(content) + (EndText(name, endGap.value) + k))
  {
    hide StartText, EndText, ItemsText;
    if item.endGap.Some? {
      var start := StartText(item.name, item.attributes, item.gap, false);
      var body, end := ItemsText(item.content), EndText(item.name, item.endGap.value);
      AppendAssociative(body, end, k);
      AppendAssociative(start, body + end, k);
    } else {
      assert ItemText(item) == StartText(item.name, item.attributes, item.gap, true);
    }
  }

  lemma {:induction false} TaggedMeaning(item: Item, scope: Scope)
    requires IsSpelledItem(item) && item.Tagged?
    ensures var nodes := Meanings(item.content, ScopeIn(scope, item.attributes));
      Meaning(item, scope) == [OpenedBy(item.name, item.attributes, scope).(children := Merge(nodes))]
    ensures item.content == [] ==>
      Meaning(item, scope) == [OpenedBy(item.name, item.attributes, scope)]
  {
    hide ResolvedBy, DeclaredBy;
  }

  /** The content of an element and its end tag, after its start tag. */
  lemma {:induction false} RunBody(item: Item, state: State, k: string, maxDepth: nat)
    requires IsSpelledItem(item) && item.Tagged? && item.endGap.Some?
    ensures var scope := ScopeMap(state.stack);
      var r := Run(ItemsText(item.content) + (EndText(item.name, item.endGap.value) + k),
        StartedBy(item.name, item.attributes, false, state), maxDepth);
      if AreItemsIn(item.content, ScopeIn(scope, item.attributes), maxDepth - |state.stack| - 1)
        && !IsJsSpace(item.name.local[|item.name.local| - 1]) then
        r == Run(k, Attach(state, Meaning(item, scope)[0]), maxDepth)
      else r.Err?
    decreases item, 1
  {
    hide Attach, EndText, NameText, IsSpelled, DeclaredBy, Run, Meaning, Meanings, OpenedBy, ItemsText, Merge;
    hide WithNodes, ScopeMap, IsJsSpace, AreItemsIn, IsName;
    var Tagged(name, attributes, gap, content, endGap) := item;
    var scope := ScopeMap(state.stack);
    var end := EndText(name, endGap.value) + k;
    var e := OpenedBy(name, attributes, scope);
    var pushed := Open(NameText(name), e, DeclaredBy(attributes));
    var inside := state.(stack := state.stack + [pushed]);
    PushedScope(state.stack, pushed);
    EndTextStarts(name, endGap.value, k);
    RunItems(content, inside, end, maxDepth);
    TaggedMeaning(item, scope);
    var nodes := Meanings(content, ScopeIn(scope, attributes));
    BareIsBare(name, attributes, scope);
    InsideWith(state, pushed, nodes);
    RunEnd(
      name, endGap.value, WithNodes(inside, nodes), state, e.(children := Merge(nodes)), DeclaredBy(attributes), k,
      maxDepth);
  }

  /** An element, read, and what follows; it is refused exactly when it may not stand there. */
  lemma {:induction false} RunTagged(item: Item, state: State, k: string, maxDepth: nat)
    requires IsSpelledItem(item) && item.Tagged? && (state.stack == [] ==> state.root.None?)
    ensures var r := Run(ItemText(item) + k, state, maxDepth);
      if IsItemIn(item, ScopeMap(state.stack), maxDepth - |state.stack|) then
        r == Run(k, Attach(state, Meaning(item, ScopeMap(state.stack))[0]), maxDepth)
      else r.Err?
    decreases item, 2
  {
    hide IsTagIn, EndText, StartText, NameText, IsSpelled, DeclaredBy, Run, ItemText, Meaning, ItemsText, ScopeMap;
    hide OpenedBy, Attach, AreItemsIn, IsJsSpace, IsName;
    TaggedText(item, k);
    if item.endGap.None? {
      TaggedMeaning(item, ScopeMap(state.stack));
      NoItems(ScopeIn(ScopeMap(state.stack), item.attributes), maxDepth - |state.stack| - 1);
      RunStart(item.name, item.attributes, item.gap, true, state, k, maxDepth);
    } else {
      var end := EndText(item.name, item.endGap.value) + k;
      RunStart(item.name, item.attributes, item.gap, false, state, ItemsText(item.content) + end, maxDepth);
      RunBody(item, state, k, maxDepth);
    }
  }

  lemma {:induction false} NoItems(scope: Scope, depth: int)
    ensures AreItemsIn([], scope, depth)
  {
  }

  lemma {:induction false} BareIsBare(name: Name, attributes: seq<Spelled>, scope: Scope)
    requires AreSpelled(attributes)
    ensures OpenedBy(name, attributes, scope).children == []
  {
  }

  lemma {:induction false} PushedScope(stack: seq<Open>, open: Open)
    ensures ScopeMap(stack + [open]) == ScopeMap(stack) + open.declared
  {
    assert (stack + [open])[..|stack|] == stack;
  }

  lemma {:induction false} EndTextStarts(name: Name, endGap: string, k: string)
    ensures EndText(name, endGap) + k != "" && (EndText(name, endGap) + k)[0] == '<'
  {
  }

  lemma {:induction false} InsideWith(state: State, pushed: Open, nodes: seq<Node>)
    requires pushed.element.children == []
    ensures var inside := state.(stack := state.stack + [pushed]);
      WithNodes(inside, nodes) ==
      state.(stack := state.stack + [pushed.(element := pushed.element.(children := Merge(nodes)))])
  {
    AppendAllMerges(nodes);
  }

  lemma {:induction false} RunItems(items: seq<Item>, state: State, k: string, maxDepth: nat)
    requires AreSpelledItems(items) && state.stack != [] && k != "" && k[0] == '<'
    ensures var r, scope := Run(ItemsText(items) + k, state, maxDepth), ScopeMap(state.stack);
      if AreItemsIn(items, scope, maxDepth - |state.stack|) then
        r == Run(k, WithNodes(state, Meanings(items, scope)), maxDepth)
      else r.Err?
    decreases items, 0
  {
    hide Run, WithNodes, ItemText, ScopeMap, IsSpelledItem, IsItemIn;
    var scope := ScopeMap(state.stack);
    if items == [] {
      WithNoNodes(state);
      assert ItemsText(items) + k == k;
    } else {
      var first, rest := Meaning(items[0], scope), items[1..];
      var tail := ItemsText(rest) + k;
      AppendAssociative(ItemText(items[0]), ItemsText(rest), k);
      TailStarts(items, k);
      RunItem(items[0], state, tail, maxDepth);
      SameScope(state, first);
      RunItems(rest, WithNodes(state, first), k, maxDepth);
      WithNodesTwice(state, first, Meanings(rest, scope));
    }
  }

  lemma {:induction false} TailStarts(items: seq<Item>, k: string)
    requires AreSpelledItems(items) && items != [] && k != "" && k[0] == '<'
    ensures items[0].Chars? ==> var tail := ItemsText(items[1..]) + k; tail != "" && tail[0] == '<'
  {
    hide ItemText, IsSpelledItem;
    if |items| > 1 && items[0].Chars? {
      assert items[1..][0] == items[1];
      ItemStarts(items[1]);
    } else {
      assert ItemsText([]) + k == k;
    }
  }

  lemma {:induction false} RunItem(item: Item, state: State, k: string, maxDepth: nat)
    requires IsSpelledItem(item) && state.stack != [] && (item.Chars? ==> k != "" && k[0] == '<')
    ensures var r, scope := Run(ItemText(item) + k, state, maxDepth), ScopeMap(state.stack);
      if IsItemIn(item, scope, maxDepth - |state.stack|) then
        r == Run(k, WithNodes(state, Meaning(item, scope)), maxDepth)
      else r.Err?
    decreases item, 3
  {
    hide Run, WithNodes, ScopeMap, BitsText, BitsMeaning, IsTagIn, ResolvedBy, StartText, EndText, IsComment, IsInstruction;
    match item {
      case Chars(bits) => RunChars(bits, k, state, maxDepth);
      case CDataSection(text) =>
        Nested("<![CDATA[", text, "]]>", k);
        RunCData(text, k, state, maxDepth);
      case Comment(text) =>
        Nested("<!--", text, "-->", k);
        RunComment(text, k, state, maxDepth);
        WithNoNodes(state);
      case Instruction(text) =>
        Nested("<?", text, "?>", k);
        RunInstruction(text, k, state, maxDepth);
        WithNoNodes(state);
      case Tagged(_, _, _, _, _) =>
        RunTagged(item, state, k, maxDepth);
        var nodes := Meaning(item, ScopeMap(state.stack));
        assert nodes == [nodes[0]];
        WithOneNode(state, nodes[0]);
    }
  }

  lemma {:induction false} Nested(a: string, b: string, c: string, k: string)
    ensures a + (b + c) + k == a + (b + (c + k))
  {
  }

  // ---- Around the root

  /** What may stand before and after the root: comments, instructions and white space. */
  predicate IsMisc(item: Item) {
    match item
    case Chars(bits) => AreBits(bits) && AreSpaces(BitsMeaning(bits))
    case Comment(text) => IsComment(text)
    case Instruction(text) => IsInstruction(text)
    case _ => false
  }

  predicate AreMisc(items: seq<Item>) {
    && (forall i :: 0 <= i < |items| ==> IsMisc(items[i]))
    && (forall i :: 0 < i < |items| ==> !(items[i - 1].Chars? && items[i].Chars?))
  }

  datatype Document = Document(before: seq<Item>, root: Item, after: seq<Item>)

  predicate IsDocument(d: Document) {
    AreMisc(d.before) && AreMisc(d.after) && d.root.Tagged? && IsSpelledItem(d.root)
  }

  function DocumentText(d: Document): string {
    ItemsText(d.before) + (ItemText(d.root) + ItemsText(d.after))
  }

  lemma {:induction false} RunMisc(item: Item, state: State, k: string, maxDepth: nat)
    requires IsMisc(item) && state.stack == [] && (item.Chars? ==> k == "" || k[0] == '<')
    ensures Run(ItemText(item) + k, state, maxDepth) == Run(k, state, maxDepth)
  {
    match item {
      case Chars(bits) => RunSpaces(bits, k, state, maxDepth);
      case Comment(text) =>
        Nested("<!--", text, "-->", k);
        RunComment(text, k, state, maxDepth);
      case Instruction(text) =>
        Nested("<?", text, "?>", k);
        RunInstruction(text, k, state, maxDepth);
    }
  }

  lemma {:induction false} RunSpaces(bits: seq<Bit>, k: string, state: State, maxDepth: nat)
    requires AreBits(bits) && AreSpaces(BitsMeaning(bits)) && state.stack == [] && (k == "" || k[0] == '<')
    ensures Run(BitsText(bits) + k, state, maxDepth) == Run(k, state, maxDepth)
  {
    hide BitMeaning, BitText, IsBit, DecodeEntities;
    var raw := BitsText(bits);
    BitsDecode(bits);
    BitsAreInert(bits, '"');
    assert AddText(state, BitsMeaning(bits)) == Ok(state);
    if raw == "" {
      assert raw + k == k;
    } else if k == "" {
      assert raw + k == raw;
      IndexOfIsFirst(raw, '<');
    } else {
      RunText(raw, BitsMeaning(bits), k, state, maxDepth);
    }
  }

  lemma {:induction false} RunAllMisc(items: seq<Item>, state: State, k: string, maxDepth: nat)
    requires AreMisc(items) && state.stack == [] && (k == "" || k[0] == '<')
    ensures Run(ItemsText(items) + k, state, maxDepth) == Run(k, state, maxDepth)
  {
    hide Run, ItemText, IsMisc;
    if items == [] {
      assert ItemsText(items) + k == k;
    } else {
      var rest := items[1..];
      assert forall i :: 0 <= i < |rest| ==> rest[i] == items[i + 1];
      AppendAssociative(ItemText(items[0]), ItemsText(rest), k);
      if rest != [] && items[0].Chars? {
        assert !(items[0].Chars? && items[1].Chars?);
        MiscIsSpelled(items[1]);
        ItemStarts(items[1]);
      } else if items[0].Chars? {
        assert ItemsText(rest) + k == k;
      }
      RunMisc(items[0], state, ItemsText(rest) + k, maxDepth);
      RunAllMisc(rest, state, k, maxDepth);
    }
  }

  lemma {:induction false} MiscIsSpelled(item: Item)
    requires IsMisc(item)
    ensures IsSpelledItem(item)
  {
  }

  /** What a document means: its root element, in no scope but the outermost. */
  function RootOf(d: Document): Element
    requires IsSpelledItem(d.root) && d.root.Tagged?
  {
    Meaning(d.root, OUTSIDE)[0]
  }

  lemma {:induction false} RootIsAttached(root: Element)
    ensures Attach(START, root) == State([], Some(root)) && ScopeMap([]) == OUTSIDE
    ensures forall maxDepth: nat :: Run("", State([], Some(root)), maxDepth) == Ok(root)
  {
  }

  lemma {:induction false} RunDocument(d: Document, maxDepth: nat)
    requires IsDocument(d)
    ensures var r := Run(DocumentText(d), START, maxDepth);
      if IsItemIn(d.root, OUTSIDE, maxDepth) then r == Ok(RootOf(d)) else r.Err?
  {
    hide ItemText, Meaning, IsItemIn, AreMisc, Run, ItemsText, Attach, ScopeMap;
    var after := ItemsText(d.after);
    var tail := ItemText(d.root) + after;
    ItemStarts(d.root);
    RootIsAttached(RootOf(d));
    RunAllMisc(d.before, START, tail, maxDepth);
    RunTagged(d.root, START, after, maxDepth);
    assert after + "" == after;
    RunAllMisc(d.after, State([], Some(RootOf(d))), "", maxDepth);
  }

  /**
   * Every document, however it is spelled, is read as what it means exactly when it is within the size
   * limit and its root may stand in no scope but the outermost; a byte order mark in front changes
   * nothing but the size.
   */
  lemma {:induction false} DocumentIsRead(d: Document, mark: bool, maxBytes: nat, maxDepth: nat)
    requires IsDocument(d)
    ensures var text := (if mark then "\U{FEFF}" else "") + DocumentText(d);
      var r := Parse(text, maxBytes, maxDepth);
      && (r == Ok(RootOf(d)) <==> Utf8Length(text) <= maxBytes && IsItemIn(d.root, OUTSIDE, maxDepth))
      && (r.Ok? ==> r == Ok(RootOf(d)))
  {
    hide Run, Utf8Length, IsDocument, IsItemIn, Meaning;
    RunDocument(d, maxDepth);
    DocumentStarts(d);
    if mark {
      assert ("\U{FEFF}" + DocumentText(d))[1..] == DocumentText(d);
    } else {
      assert "" + DocumentText(d) == DocumentText(d);
    }
  }

  lemma {:induction false} DocumentStarts(d: Document)
    requires IsDocument(d)
    ensures var text := DocumentText(d); text != "" && text[0] as int != 0xFEFF
  {
    hide ItemText, IsSpelledItem;
    var tail := ItemText(d.root) + ItemsText(d.after);
    ItemStarts(d.root);
    FirstOfMisc(d.before, tail);
  }

  lemma {:induction false} FirstOfMisc(items: seq<Item>, tail: string)
    requires AreMisc(items) && tail != "" && tail[0] == '<'
    ensures var text := ItemsText(items) + tail; text != "" && text[0] as int != 0xFEFF
  {
    hide ItemText;
    if items == [] {
      assert ItemsText(items) + tail == tail;
    } else {
      var rest := items[1..];
      assert forall i :: 0 <= i < |rest| ==> rest[i] == items[i + 1];
      assert IsMisc(items[0]);
      FirstOfMisc(rest, tail);
      AppendAssociative(ItemText(items[0]), ItemsText(rest), tail);
      if items[0].Chars? {
        FirstOfSpaces(items[0].bits);
        CharsText(items[0].bits);
        assert BitsText(items[0].bits) == "" ==> ItemText(items[0]) + (ItemsText(rest) + tail) == ItemsText(rest) + tail;
      } else {
        MiscIsSpelled(items[0]);
        ItemStarts(items[0]);
      }
    }
  }

  lemma {:induction false} CharsText(bits: seq<Bit>)
    ensures ItemText(Chars(bits)) == BitsText(bits)
  {
  }

  lemma {:induction false} FirstOfSpaces(bits: seq<Bit>)
    requires AreBits(bits) && AreSpaces(BitsMeaning(bits))
    ensures BitsText(bits) != "" ==> BitsText(bits)[0] as int != 0xFEFF
  {
    if bits != [] {
      assert BitsMeaning(bits)[0] == BitMeaning(bits[0]) && BitsMeaning(bits)[0] in BitsMeaning(bits);
      BitIsNotEmpty(bits[0]);
      if bits[0].Char? {
        assert BitText(bits[0])[0] == bits[0].c;
      } else {
        ReferenceStarts(bits[0]);
      }
    }
  }

  lemma {:induction false} ReferenceStarts(bit: Bit)
    ensures !bit.Char? ==> BitText(bit) != "" && BitText(bit)[0] == '&'
  {
    hide DigitsOf, Zeros;
  }

  // ---- A comment that ends early

  /** The first `-->` after a comment's `<!--` is the one that ends it exactly when it begins with neither. */
  lemma {:induction false} CommentIsSkippedExactly(text: string, k: string)
    requires !Contains(text, "-->")
    ensures Find("<!--" + (text + ("-->" + k)), "-->") == 4 + |text| <==> !(">" <= text) && !("->" <= text)
  {
    hide Contains;
    var s := "<!--" + (text + ("-->" + k));
    CommentHead(text, k);
    if !(">" <= text) && !("->" <= text) {
      MarkerIsFirst("<!--", text, "-->", k);
    } else {
      var i :| 0 <= i < 4 && "-->" <= s[i..];
      FindsNoLater(s, "-->", i);
    }
  }

  lemma {:induction false} FindsNoLater(s: string, marker: string, i: nat)
    requires i <= |s| && marker <= s[i..]
    ensures 0 <= Find(s, marker) <= i
  {
    if i > 0 && !(marker <= s) {
      assert s[1..][i - 1..] == s[i..];
      FindsNoLater(s[1..], marker, i - 1);
    } else if i == 0 {
      assert s[0..] == s;
    }
  }

  lemma {:induction false} EarlyEnd(head: string, rest: string)
    requires head == ">" || head == "->"
    ensures SkipTo("<!--" + (head + rest), "-->") == Ok(rest)
  {
    var s := "<!--" + (head + rest);
    var n := |head| + 1;
    assert s[0] == '<' && s[1] == '!' && s[2] == '-' && s[3] == '-' && s[4] == head[0];
    assert s[n..][..3] == "-->";
    forall i | 0 <= i < n
      ensures !("-->" <= s[i..])
    {
      assert s[i..][0] == s[i] && s[i..][2] == s[i + 2] && "-->"[0] == '-' && "-->"[2] == '>';
    }
    FindAt(s, "-->", n);
    assert s == ("<!--" + head) + rest && |"<!--" + head| == n + 3;
    assert s[n + 3..] == rest;
  }

  lemma {:induction false} CommentMarkup(after: string, state: State, maxDepth: nat)
    requires SkipTo("<!--" + after, "-->").Ok?
    ensures Markup("<!--" + after, state, maxDepth) == Ok((SkipTo("<!--" + after, "-->").value, state))
    ensures ("<!--" + after)[0] == '<'
  {
    hide SkipTo;
    var s := "<!--" + after;
    assert s[1] == '!' && "<!--" <= s && !("<?" <= s) by {
      assert "<?"[1] == '?';
    }
  }

  lemma {:induction false} PlainIsItself(raw: string)
    requires '&' !in raw
    ensures DecodeEntities(raw) == Ok(raw)
  {
    IndexOfIsFirst(raw, '&');
  }

  /**
   * A comment such as `<!-->x-->`, which holds ">x" (section 2.5 of XML 1.0): the reader ends it at its
   * first ">", and adds the rest of it to the element as text.
   */
  lemma {:induction false} EarlyCommentIsText(head: string, more: string, k: string, state: State, maxDepth: nat)
    requires (head == ">" || head == "->") && '<' !in more && '&' !in more
    requires state.stack != [] && k != "" && k[0] == '<'
    ensures Run("<!--" + ((head + more) + ("-->" + k)), state, maxDepth) ==
      Run(k, WithNodes(state, [Text(more + "-->")]), maxDepth)
  {
    hide Run, Markup, SkipTo, WithNodes, DecodeEntities;
    var raw := more + "-->";
    AppendAssociative(head, more, "-->" + k);
    AppendAssociative(more, "-->", k);
    EarlyEnd(head, raw + k);
    CommentMarkup(head + (raw + k), state, maxDepth);
    RunFromMarkup("<!--" + (head + (raw + k)), state, maxDepth);
    PlainIsItself(raw);
    WithOneNode(state, Text(raw));
    RunText(raw, raw, k, state, maxDepth);
  }

  // ---- What is refused

  /** A markup declaration, such as a DOCTYPE, is refused wherever it may stand before the root. */
  lemma {:induction false} DoctypeIsForbidden(before: seq<Item>, rest: string, maxDepth: nat)
    requires AreMisc(before) && rest != "" && rest[0] != '-' && rest[0] != '['
    ensures Run(ItemsText(before) + ("<!" + rest), START, maxDepth) == Err(Forbidden)
  {
    var s := "<!" + rest;
    assert s[0] == '<' && s[1] == '!' && s[2] == rest[0];
    assert "<!" <= s && !("<?" <= s) && !("<!--" <= s) && !("<![CDATA[" <= s) by {
      assert "<?"[1] == '?' && "<!--"[2] == '-' && "<![CDATA["[2] == '[';
    }
    RunFromMarkup(s, START, maxDepth);
    hide Run;
    RunAllMisc(before, START, s, maxDepth);
  }

  /** An entity that is not one of the five is refused, after any text. */
  lemma {:induction false} OtherEntityIsForbidden(bits: seq<Bit>, name: string, rest: string)
    requires AreBits(bits) && ';' !in name && name !in {"lt", "gt", "amp", "quot", "apos"}
    requires name == "" || name[0] != '#'
    ensures DecodeEntities(BitsText(bits) + ("&" + (name + (";" + rest)))) == Err(Forbidden)
  {
    hide BitText, BitMeaning, IsBit;
    var reference := "&" + (name + (";" + rest));
    if bits == [] {
      var after := name + (";" + rest);
      assert BitsText(bits) + reference == reference && reference[1..] == after;
      IndexOfAppend(name, ";" + rest, ';');
      assert after[..|name|] == name;
      assert DecodeEntity(name) == Err(Forbidden);
      hide DecodeEntity;
      assert IndexOf(reference, '&') == 0;
    } else {
      hide DecodeEntities, DecodeEntity;
      OtherEntityIsForbidden(bits[1..], name, rest);
      BitDecodes(bits[0], BitsText(bits[1..]) + reference);
      AppendAssociative(BitText(bits[0]), BitsText(bits[1..]), reference);
    }
  }

  /** An end tag of another name than the inmost open element's is refused. */
  lemma {:induction false} OtherEndIsRefused(s: string, state: State)
    requires state.stack == [] || TrimEnd(s) != state.stack[|state.stack| - 1].qname
    ensures CloseElement(state, TrimEnd(s)) == Err(Malformed)
  {
  }

  /** A "<" in the value of an attribute is refused. */
  lemma {:induction false} AngleIsRefused(quote: char, raw: string, tail: string)
    requires (quote == '"' || quote == '\'') && quote !in raw && '<' in raw
    ensures ReadQuoted([quote] + (raw + ([quote] + tail))) == Err(Malformed)
  {
    var after := raw + ([quote] + tail);
    assert ([quote] + after)[1..] == after;
    IndexOfAppend(raw, [quote] + tail, quote);
    assert after[..|raw|] == raw;
  }

  /** A number that is no character of XML is refused. */
  lemma {:induction false} OtherCodeIsRefused(zeros: nat, code: nat, hex: bool, capital: bool)
    requires !IsXmlCode(code)
    ensures DecodeNumber(Zeros(zeros) + DigitsOf(code, if hex then 16 else 10, capital), hex) == Err(Malformed)
  {
    hide DigitsValue, DigitsOf, Zeros, IsXmlCode;
    DigitsAreRead(zeros, code, if hex then 16 else 10, capital);
  }

  /** Text other than white space is refused outside the root. */
  lemma {:induction false} OutsideTextIsRefused(bits: seq<Bit>, k: string, state: State, maxDepth: nat)
    requires AreBits(bits) && !AreSpaces(BitsMeaning(bits)) && state.stack == [] && (k == "" || k[0] == '<')
    ensures Run(BitsText(bits) + k, state, maxDepth) == Err(Malformed)
  {
    hide BitMeaning, BitText, IsBit, DecodeEntities;
    var raw := BitsText(bits);
    BitsDecode(bits);
    BitsAreInert(bits, '"');
    assert raw != "" by {
      if raw == "" {
        NoBits(bits);
      }
    }
    assert AddText(state, BitsMeaning(bits)) == Err(Malformed);
    if k == "" {
      assert raw + k == raw;
      IndexOfIsFirst(raw, '<');
    } else {
      IndexOfAppend(raw, k, '<');
      assert (raw + k)[..|raw|] == raw;
    }
  }
}
