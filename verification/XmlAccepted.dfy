/** What holds of every document the reader accepts. */
module XmlAccepted {
  import opened Wrappers
  import opened JsText
  import opened XmlTree
  import opened XmlReader

  // ---- Namespace scopes

  /** The scope as a map copied at every element, which the source does not build. */
  function ScopeMap(stack: seq<Open>): map<string, string> {
    if stack == [] then map["xml" := XML_NS, "" := ""]
    else ScopeMap(stack[..|stack| - 1]) + stack[|stack| - 1].declared
  }

  /** Walking the open elements finds what the copied map holds (section 6.1 of Namespaces in XML 1.0). */
  lemma {:induction false} LookupIsScopeMap(stack: seq<Open>, own: Declared, prefix: string)
    ensures var scope := ScopeMap(stack) + own;
      LookupPrefix(stack, own, prefix) == if prefix in scope then Some(scope[prefix]) else None
  {
    if stack != [] {
      LookupIsScopeMap(stack[..|stack| - 1], stack[|stack| - 1].declared, prefix);
    }
  }

  // ---- Names

  predicate AttributesNameable(attributes: seq<Attribute>) {
    forall a :: a in attributes ==> IsNameable(a)
  }

  /** Names that can be written: valid, and none in the namespace of declarations. */
  predicate Nameable(e: Element)
    decreases e
  {
    IsNcName(e.name) && e.namespace != XMLNS_NS && AttributesNameable(e.attributes) && AllNameable(e.children)
  }

  predicate AllNameable(children: seq<Node>)
    decreases children
  {
    children == [] || ((children[0].Elem? ==> Nameable(children[0])) && AllNameable(children[1..]))
  }

  /** Nothing is bound to the namespace of declarations, and no prefix to the empty one. */
  predicate DeclaresProperly(declared: Declared) {
    forall p :: p in declared ==> declared[p] != XMLNS_NS && (p != "" ==> declared[p] != "")
  }

  lemma {:induction false} DeclarationsAreProper(attributes: seq<RawAttribute>)
    ensures Declarations(attributes).Ok? ==> DeclaresProperly(Declarations(attributes).value)
  {
    if attributes != [] {
      DeclarationsAreProper(attributes[..|attributes| - 1]);
    }
  }

  lemma {:induction false} ProperlyResolved(stack: seq<Open>, own: Declared, prefix: string)
    requires DeclaresProperly(own) && forall i :: 0 <= i < |stack| ==> DeclaresProperly(stack[i].declared)
    ensures LookupPrefix(stack, own, prefix) != Some(XMLNS_NS)
    ensures prefix != "" ==> LookupPrefix(stack, own, prefix) != Some("")
  {
    if stack != [] {
      ProperlyResolved(stack[..|stack| - 1], stack[|stack| - 1].declared, prefix);
    } else {
      assert |XMLNS_NS| == 29 && |XML_NS| == 36;
    }
  }

  lemma {:induction false} SplitNames(qname: string)
    requires SplitQName(qname).Ok?
    ensures IsNcName(SplitQName(qname).value.1)
    ensures SplitQName(qname).value.0 == "" ==> SplitQName(qname).value.1 == qname
  {
  }

  predicate IsNameable(a: Attribute) {
    IsNcName(a.name) && a.namespace != XMLNS_NS && !(a.namespace == "" && a.name == "xmlns")
  }

  lemma {:induction false} LastResolved(stack: seq<Open>, own: Declared, name: string, namespace: string)
    requires DeclaresProperly(own) && forall i :: 0 <= i < |stack| ==> DeclaresProperly(stack[i].declared)
    requires !IsDeclaration(name) && SplitQName(name).Ok?
    requires var prefix := SplitQName(name).value.0;
      Ok(namespace) == if prefix == "" then Ok("") else ResolvePrefix(stack, own, prefix)
    ensures IsNameable(Attribute(namespace, SplitQName(name).value.1, ""))
  {
    SplitNames(name);
    ProperlyResolved(stack, own, SplitQName(name).value.0);
    assert |XMLNS_NS| == 29;
  }

  lemma {:induction false} ResolvedAttributes(stack: seq<Open>, own: Declared, attributes: seq<RawAttribute>)
    requires DeclaresProperly(own) && forall i :: 0 <= i < |stack| ==> DeclaresProperly(stack[i].declared)
    requires ResolveAttributes(stack, own, attributes).Ok?
    ensures DistinctNames(ResolveAttributes(stack, own, attributes).value)
    ensures AttributesNameable(ResolveAttributes(stack, own, attributes).value)
  {
    if attributes != [] {
      var n := |attributes| - 1;
      ResolvedAttributes(stack, own, attributes[..n]);
      var (name, value) := attributes[n];
      if !IsDeclaration(name) {
        var resolved := ResolveAttributes(stack, own, attributes).value;
        LastResolved(stack, own, name, resolved[|resolved| - 1].namespace);
      }
    }
  }

  // ---- The open elements at any moment of the pass

  predicate IsGoodElement(e: Element, depth: int) {
    Normal(e) && WithinDepth(e, depth) && Nameable(e) && Closable(e)
  }

  predicate AreGood(children: seq<Node>, depth: int) {
    MergedText(children) && AreGoodNodes(children, depth)
  }

  predicate AreGoodNodes(children: seq<Node>, depth: int) {
    AllNormal(children) && AllWithinDepth(children, depth) && AllNameable(children) && AllClosable(children)
  }

  /** The tag that opened the element ends in its name. */
  predicate EndsInName(open: Open) {
    && open.qname != "" && open.element.name != ""
    && open.qname[|open.qname| - 1] == open.element.name[|open.element.name| - 1]
  }

  predicate IsGoodOpen(open: Open, depth: int) {
    && depth >= 0 && IsNcName(open.element.name) && open.element.namespace != XMLNS_NS
    && DistinctNames(open.element.attributes) && AttributesNameable(open.element.attributes)
    && AreGood(open.element.children, depth) && DeclaresProperly(open.declared) && EndsInName(open)
  }

  /** The invariant of the pass: never too deep, and every piece of tree built so far is good. */
  predicate IsGoodState(state: State, maxDepth: nat) {
    && (forall i :: 0 <= i < |state.stack| ==> IsGoodOpen(state.stack[i], maxDepth - i - 1))
    && (state.root.Some? ==> IsGoodElement(state.root.value, maxDepth))
  }

  lemma {:induction false} AllGoodAppend(children: seq<Node>, child: Node, depth: int)
    requires AreGoodNodes(children, depth) && (child.Elem? ==> IsGoodElement(child, depth))
    ensures AreGoodNodes(children + [child], depth)
  {
    var all := children + [child];
    if children == [] {
      assert all[1..] == [];
    } else {
      AllGoodAppend(children[1..], child, depth);
      assert all[1..] == children[1..] + [child];
    }
  }

  lemma {:induction false} AllGoodPrefix(children: seq<Node>, n: nat, depth: int)
    requires AreGoodNodes(children, depth) && n <= |children|
    ensures AreGoodNodes(children[..n], depth)
  {
    if n > 0 {
      AllGoodPrefix(children[1..], n - 1, depth);
      assert children[..n][1..] == children[1..][..n - 1];
    }
  }

  lemma {:induction false} AppendIsGood(children: seq<Node>, child: Node, depth: int)
    requires AreGood(children, depth) && child != Text("")
    requires child.Elem? ==> IsGoodElement(child, depth)
    ensures AreGood(Append(children, child), depth)
  {
    var n := |children| - 1;
    if child.Text? && n >= 0 && children[n].Text? {
      var merged := Text(children[n].text + child.text);
      AllGoodPrefix(children, n, depth);
      AllGoodAppend(children[..n], merged, depth);
      assert children[n] != Text("");
      assert merged.text != "";
    } else {
      AllGoodAppend(children, child, depth);
    }
  }

  lemma {:induction false} AttachIsGood(state: State, child: Node, maxDepth: nat)
    requires IsGoodState(state, maxDepth) && child != Text("") && (state.stack != [] || child.Elem?)
    requires child.Elem? ==> IsGoodElement(child, maxDepth - |state.stack|)
    ensures IsGoodState(Attach(state, child), maxDepth)
  {
    if state.stack != [] {
      var top := state.stack[|state.stack| - 1];
      AppendIsGood(top.element.children, child, maxDepth - |state.stack|);
    }
  }

  /** A start tag opens a good element. */
  lemma {:induction false} OpenedIsGood(stack: seq<Open>, qname: string, name: (string, string), tag: Tag, depth: int)
    requires depth >= 0 && forall i :: 0 <= i < |stack| ==> DeclaresProperly(stack[i].declared)
    requires Declarations(tag.attributes).Ok? && SplitQName(qname) == Ok(name)
    requires var declared := Declarations(tag.attributes).value;
      ResolvePrefix(stack, declared, name.0).Ok? && ResolveAttributes(stack, declared, tag.attributes).Ok?
    ensures var declared := Declarations(tag.attributes).value;
      var attributes := ResolveAttributes(stack, declared, tag.attributes).value;
      IsGoodOpen(
        Open(qname, Elem(ResolvePrefix(stack, declared, name.0).value, name.1, attributes, []), declared), depth)
  {
    DeclarationsAreProper(tag.attributes);
    var declared := Declarations(tag.attributes).value;
    ResolvedAttributes(stack, declared, tag.attributes);
    ProperlyResolved(stack, declared, name.0);
    SplitEnds(qname);
    hide Declarations, ResolveAttributes, SplitQName, LookupPrefix, IsNcName, DeclaresProperly;
  }

  lemma {:induction false} SplitEnds(qname: string)
    requires SplitQName(qname).Ok?
    ensures var name := SplitQName(qname).value.1;
      && IsNcName(name) && qname != "" && name != "" && qname[|qname| - 1] == name[|name| - 1]
  {
  }

  lemma {:induction false} OpenIsGood(state: State, qname: string, tag: Tag, maxDepth: nat)
    requires IsGoodState(state, maxDepth) && OpenElement(state, qname, tag, maxDepth).Ok?
    ensures IsGoodState(OpenElement(state, qname, tag, maxDepth).value, maxDepth)
  {
    var declared := Declarations(tag.attributes).value;
    var name := SplitQName(qname).value;
    OpenedIsGood(state.stack, qname, name, tag, maxDepth - |state.stack| - 1);
    if tag.selfClosing {
      var attributes := ResolveAttributes(state.stack, declared, tag.attributes).value;
      var element := Elem(ResolvePrefix(state.stack, declared, name.0).value, name.1, attributes, []);
      assert AllWithinDepth([], maxDepth - |state.stack| - 1);
      AttachIsGood(state, element, maxDepth);
    }
  }

  lemma {:induction false} TrimmedEnd(s: string)
    ensures TrimEnd(s) != "" ==> !IsJsSpace(TrimEnd(s)[|TrimEnd(s)| - 1])
  {
    if s != "" {
      TrimmedEnd(s[..|s| - 1]);
    }
  }

  /** An end tag is trimmed, so it closes no element whose name ends in white space. */
  lemma {:induction false} CloseIsGood(state: State, qname: string, maxDepth: nat)
    requires IsGoodState(state, maxDepth) && CloseElement(state, qname).Ok?
    requires qname != "" ==> !IsJsSpace(qname[|qname| - 1])
    ensures IsGoodState(CloseElement(state, qname).value, maxDepth)
  {
    var n := |state.stack| - 1;
    assert IsGoodOpen(state.stack[n], maxDepth - n - 1);
    AttachIsGood(state.(stack := state.stack[..n]), state.stack[n].element, maxDepth);
  }

  lemma {:induction false} AddTextIsGood(state: State, value: string, maxDepth: nat)
    requires IsGoodState(state, maxDepth) && AddText(state, value).Ok?
    ensures IsGoodState(AddText(state, value).value, maxDepth)
  {
    if state.stack != [] && value != "" {
      AttachIsGood(state, Text(value), maxDepth);
    }
  }

  lemma {:induction false} MarkupIsGood(s: string, state: State, maxDepth: nat)
    requires s != "" && s[0] == '<' && IsGoodState(state, maxDepth) && Markup(s, state, maxDepth).Ok?
    ensures IsGoodState(Markup(s, state, maxDepth).value.1, maxDepth)
  {
    if "<?" <= s || "<!--" <= s {
    } else if "<![CDATA[" <= s {
      AddTextIsGood(state, s[9..][..Scan.Find(s[9..], "]]>")], maxDepth);
    } else if "</" <= s {
      TrimmedEnd(s[2..][..Scan.IndexOf(s[2..], '>')]);
      CloseIsGood(state, TrimEnd(s[2..][..Scan.IndexOf(s[2..], '>')]), maxDepth);
    } else {
      var n := Span(s[1..], TagName);
      OpenIsGood(state, s[1..][..n], ReadAttributes(s[1..][n..]).value, maxDepth);
    }
  }

  lemma {:induction false} RunIsGood(s: string, state: State, maxDepth: nat)
    requires IsGoodState(state, maxDepth) && Run(s, state, maxDepth).Ok?
    ensures IsGoodElement(Run(s, state, maxDepth).value, maxDepth)
    decreases |s|
  {
    if s != "" {
      var lt := Scan.IndexOf(s, '<');
      if lt == -1 {
        AddTextIsGood(state, DecodeEntities(s).value, maxDepth);
      } else {
        if lt > 0 {
          AddTextIsGood(state, DecodeEntities(s[..lt]).value, maxDepth);
        }
        var next := TextBetween(s[..lt], state).value;
        MarkupIsGood(s[lt..], next, maxDepth);
        var (rest, after) := Markup(s[lt..], next, maxDepth).value;
        RunIsGood(rest, after, maxDepth);
      }
    }
  }

  /**
   * An accepted document fits its limits; its tree has no empty or adjacent texts, no two attributes
   * with one expanded name, only names that may be written again, and none on an element with
   * children that an end tag cannot close.
   */
  lemma {:induction false} AcceptedIsGood(text: string, maxBytes: nat, maxDepth: nat)
    requires Parse(text, maxBytes, maxDepth).Ok?
    ensures var e := Parse(text, maxBytes, maxDepth).value;
      Utf8Length(text) <= maxBytes && WithinDepth(e, maxDepth) && Normal(e) && Nameable(e) && Closable(e)
  {
    RunIsGood(if text != "" && text[0] as int == 0xFEFF then text[1..] else text, START, maxDepth);
  }
}
