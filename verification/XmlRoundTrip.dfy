/** `parseXml(serializeXml(e))` gives back `e`, and exactly when. */
module XmlRoundTrip {
  import opened Wrappers
  import opened JsText
  import opened Scan
  import opened XmlTree
  import opened XmlReader
  import opened XmlWriter
  import opened XmlEscaping
  import opened XmlPrefixes
  import opened XmlStartTag
  import opened XmlOpenElement

  // ---- One step of the pass

  lemma RunFromMarkup(s: string, state: State, maxDepth: nat)
    requires s != "" && s[0] == '<'
    ensures Run(s, state, maxDepth) ==
            match Markup(s, state, maxDepth)
            case Ok((rest, next)) => Run(rest, next, maxDepth)
            case Err(error) => Err(error)
  {
    assert s[0..] == s && s[..0] == "";
  }

  /** Text up to the next markup is added to the inmost element. */
  lemma {:induction false} RunText(raw: string, text: string, m: string, state: State, maxDepth: nat)
    requires raw != "" && '<' !in raw && DecodeEntities(raw) == Ok(text)
    requires m != "" && m[0] == '<' && AddText(state, text).Ok?
    ensures Run(raw + m, state, maxDepth) == Run(m, AddText(state, text).value, maxDepth)
  {
    var s := raw + m;
    IndexOfAppend(raw, m, '<');
    assert s[..|raw|] == raw && s[|raw|..] == m;
    RunFromMarkup(m, AddText(state, text).value, maxDepth);
  }

  // ---- Start and end tags

  lemma {:induction false} TakeTagName(qname: string, rest: string)
    requires forall c :: c in qname ==> InClass(c, TagName)
    requires rest != "" && !InClass(rest[0], TagName)
    ensures var s := qname + rest; var n := Span(s, TagName);
      n == |qname| && s[..n] == qname && s[n..] == rest
  {
    SpanAppend(qname, rest, TagName);
  }

  lemma TagStartsLikeAName(s: string)
    requires |s| > 1 && s[0] == '<' && s[1] != '?' && s[1] != '!' && s[1] != '/'
    ensures !("<?" <= s) && !("<!" <= s) && !("<!--" <= s) && !("<![CDATA[" <= s) && !("</" <= s)
  {
    assert "<?"[1] == '?' && "<!"[1] == '!' && "<!--"[1] == '!' && "<![CDATA["[1] == '!' && "</"[1] == '/';
  }

  /** A start tag, read: the markup step is `OpenElement`. */
  lemma {:induction false} MarkupStartTag(qname: string, rest: string, tag: Tag, state: State, maxDepth: nat)
    requires qname != "" && (forall c :: c in qname ==> InClass(c, TagName))
    requires qname[0] != '?' && qname[0] != '!'
    requires rest != "" && !InClass(rest[0], TagName) && ReadAttributes(rest) == Ok(tag)
    ensures Markup("<" + (qname + rest), state, maxDepth) ==
            match OpenElement(state, qname, tag, maxDepth)
            case Ok(next) => Ok((tag.rest, next))
            case Err(error) => Err(error)
  {
    var s := "<" + (qname + rest);
    assert s[1] == qname[0] && qname[0] in qname;
    TagStartsLikeAName(s);
    assert s[1..] == qname + rest;
    TakeTagName(qname, rest);
  }

  /** An end tag, read: what `trimEnd` leaves of the name has to be the open one. */
  lemma {:induction false} MarkupEndTag(qname: string, k: string, state: State, maxDepth: nat)
    requires '>' !in qname
    ensures Markup("</" + (qname + (">" + k)), state, maxDepth) ==
            match CloseElement(state, TrimEnd(qname))
            case Ok(next) => Ok((k, next))
            case Err(error) => Err(error)
  {
    var s := "</" + (qname + (">" + k));
    assert s[1] == '/' && s[0] == '<';
    assert !("<?" <= s) && !("<!" <= s) && !("<!--" <= s) && !("<![CDATA[" <= s) by {
      assert "<?"[1] == '?' && "<!"[1] == '!' && "<!--"[1] == '!' && "<![CDATA["[1] == '!';
    }
    var after := qname + (">" + k);
    assert s[2..] == after;
    IndexOfAppend(qname, ">" + k, '>');
    assert after[..|qname|] == qname && after[|qname| + 1..] == k;
  }

  lemma {:induction false} TrimEndKeeps(s: string)
    requires s != ""
    ensures TrimEnd(s) == s <==> !IsJsSpace(s[|s| - 1])
  {
    TrimEndShrinks(s[..|s| - 1]);
  }

  // ---- Scopes

  /** Opening an element whose own declarations resolve every prefix leaves them resolved below it. */
  lemma {:induction false} PushResolves(stack: seq<Open>, open: Open, prefixes: Prefixes)
    requires Resolves(stack, open.declared, prefixes)
    ensures Resolves(stack + [open], map[], prefixes)
  {
    var inner := stack + [open];
    assert inner[..|inner| - 1] == stack;
    assert forall p :: LookupPrefix(inner, map[], p) == LookupPrefix(stack, open.declared, p);
  }

  lemma {:induction false} LookupIgnoresContent(a: seq<Open>, b: seq<Open>, prefix: string)
    requires |a| == |b| && forall i :: 0 <= i < |a| ==> a[i].declared == b[i].declared
    ensures LookupOpen(a, prefix) == LookupOpen(b, prefix)
  {
    if a != [] {
      LookupIgnoresContent(a[..|a| - 1], b[..|b| - 1], prefix);
    }
  }

  /** `state` with `children` added to the inmost open element. */
  function AddChildren(state: State, children: seq<Node>): State
    requires state.stack != []
  {
    var n := |state.stack| - 1;
    var top := state.stack[n];
    var element := top.element.(children := top.element.children + children);
    state.(stack := state.stack[n := top.(element := element)])
  }

  lemma AddChildrenTwice(state: State, a: seq<Node>, b: seq<Node>)
    requires state.stack != []
    ensures AddChildren(AddChildren(state, a), b) == AddChildren(state, a + b)
  {
    var n := |state.stack| - 1;
    var children := state.stack[n].element.children;
    assert children + a + b == children + (a + b);
  }

  lemma {:induction false} AddChildrenResolves(state: State, children: seq<Node>, prefixes: Prefixes)
    requires state.stack != [] && Resolves(state.stack, map[], prefixes)
    ensures Resolves(AddChildren(state, children).stack, map[], prefixes)
  {
    var next := AddChildren(state, children).stack;
    forall p: string
      ensures LookupPrefix(next, map[], p) == LookupPrefix(state.stack, map[], p)
    {
      LookupIgnoresContent(next, state.stack, p);
    }
  }

  // ---- The text of an element, from the outside in

  function QName(e: Element, prefixes: Prefixes): string {
    Qualify(prefixes, e.namespace, e.name)
  }

  function TagPairs(e: Element, prefixes: Prefixes, declarations: Pairs): Pairs {
    declarations + AttributePairs(prefixes, e.attributes)
  }

  lemma LeafText(qname: string, attributes: string, k: string)
    ensures ("<" + qname + attributes + "/>") + k == "<" + (qname + (attributes + (TagEnd(true) + k)))
  {
  }

  lemma BranchText(qname: string, attributes: string, body: string, k: string)
    ensures ("<" + qname + attributes + ">" + body + "</" + qname + ">") + k ==
            "<" + (qname + (attributes + (TagEnd(false) + (body + ("</" + (qname + (">" + k)))))))
  {
  }

  lemma {:induction false} TagRestStopsName(pairs: Pairs, selfClosing: bool, k: string)
    ensures var rest := WriteAttributes(pairs) + (TagEnd(selfClosing) + k);
      rest != "" && !InClass(rest[0], TagName)
  {
    if pairs != [] {
      assert WriteAttribute(pairs[0].0, pairs[0].1)[0] == ' ';
    }
  }

  // ---- Start tag of an element in its place

  /** Where the start tag of `e` is read: limits, scope and declarations are as they were written. */
  predicate InPlace(e: Element, prefixes: Prefixes, declarations: Pairs, own: Declared, state: State, maxDepth: nat) {
    && IsPrefixMap(prefixes) && Resolves(state.stack, own, prefixes)
    && Named(e, prefixes) && Normal(e) && WithinDepth(e, maxDepth - |state.stack|)
    && AreDeclarations(declarations) && Declarations(declarations) == Ok(own)
    && (state.stack == [] ==> state.root.None?)
  }

  function Opened(e: Element, prefixes: Prefixes, own: Declared, state: State): State {
    state.(stack := state.stack + [Open(QName(e, prefixes), Bare(e), own)])
  }

  lemma {:induction false} QNameReads(e: Element, prefixes: Prefixes, stack: seq<Open>, own: Declared)
    requires IsPrefixMap(prefixes) && Resolves(stack, own, prefixes) && Named(e, prefixes)
    ensures var qname := QName(e, prefixes);
      && qname != "" && (forall c :: c in qname ==> InClass(c, TagName))
      && qname[0] != '?' && qname[0] != '!' && qname[|qname| - 1] == e.name[|e.name| - 1]
  {
    QualifiedResolves(prefixes, stack, own, e.namespace, e.name);
    if e.namespace != "" {
      var i := PrefixIsBound(prefixes, e.namespace);
    }
  }

  lemma {:induction false} RunStartTag(
    e: Element, prefixes: Prefixes, declarations: Pairs, own: Declared, state: State, k: string, maxDepth: nat)
    requires InPlace(e, prefixes, declarations, own, state, maxDepth)
    ensures var selfClosing := e.children == [];
      Run("<" + (QName(e, prefixes) +
                 (WriteAttributes(TagPairs(e, prefixes, declarations)) + (TagEnd(selfClosing) + k))),
          state, maxDepth) ==
      Run(k, if selfClosing then Attach(state, e) else Opened(e, prefixes, own, state), maxDepth)
  {
    var selfClosing := e.children == [];
    var pairs := TagPairs(e, prefixes, declarations);
    var qname := QName(e, prefixes);
    var rest := WriteAttributes(pairs) + (TagEnd(selfClosing) + k);
    WrittenKeys(prefixes, state.stack, own, declarations, e.attributes);
    ReadWrittenAttributes(pairs, selfClosing, k);
    TagRestStopsName(pairs, selfClosing, k);
    QNameReads(e, prefixes, state.stack, own);
    var tag := Tag(pairs, selfClosing, k);
    MarkupStartTag(qname, rest, tag, state, maxDepth);
    OpenWritten(e, prefixes, declarations, own, state, tag, maxDepth);
    assert e.children == [] ==> Bare(e) == e;
    RunFromMarkup("<" + (qname + rest), state, maxDepth);
  }

  // ---- Whole elements

  lemma {:induction false} RunEndTag(
    e: Element, prefixes: Prefixes, own: Declared, state: State, k: string, maxDepth: nat)
    requires IsPrefixMap(prefixes) && Resolves(state.stack, own, prefixes) && Named(e, prefixes)
    requires e.children != []
    ensures var qname := QName(e, prefixes);
      Run("</" + (qname + (">" + k)), AddChildren(Opened(e, prefixes, own, state), e.children), maxDepth) ==
      if IsJsSpace(e.name[|e.name| - 1]) then Err(Malformed) else Run(k, Attach(state, e), maxDepth)
  {
    var qname := QName(e, prefixes);
    var inner := AddChildren(Opened(e, prefixes, own, state), e.children);
    QNameReads(e, prefixes, state.stack, own);
    assert '>' !in qname;
    MarkupEndTag(qname, k, inner, maxDepth);
    RunFromMarkup("</" + (qname + (">" + k)), inner, maxDepth);
    TrimEndKeeps(qname);
    assert inner.stack[..|state.stack|] == state.stack;
    assert [] + e.children == e.children;
    assert inner.stack[|state.stack|] == Open(qname, e, own);
  }

  lemma {:induction false} ChildrenInPlace(
    e: Element, prefixes: Prefixes, declarations: Pairs, own: Declared, state: State, maxDepth: nat)
    requires InPlace(e, prefixes, declarations, own, state, maxDepth)
    ensures AreInPlace(e.children, prefixes, Opened(e, prefixes, own, state), maxDepth)
  {
    PushResolves(state.stack, Open(QName(e, prefixes), Bare(e), own), prefixes);
    assert [] + e.children == e.children;
  }

  /** The same for the children still to be read into the inmost open element. */
  predicate AreInPlace(children: seq<Node>, prefixes: Prefixes, state: State, maxDepth: nat) {
    && IsPrefixMap(prefixes) && state.stack != [] && Resolves(state.stack, map[], prefixes)
    && AllNamed(children, prefixes) && AllNormal(children)
    && AllWithinDepth(children, maxDepth - |state.stack|)
    && MergedText(state.stack[|state.stack| - 1].element.children + children)
  }

  lemma {:induction false} HeadInPlace(children: seq<Node>, prefixes: Prefixes, state: State, maxDepth: nat)
    requires AreInPlace(children, prefixes, state, maxDepth) && children != []
    ensures AreInPlace(children[1..], prefixes, AddChildren(state, [children[0]]), maxDepth)
    ensures children[0].Elem? ==> InPlace(children[0], prefixes, [], map[], state, maxDepth)
    ensures children[0].Elem? ==> Attach(state, children[0]) == AddChildren(state, [children[0]])
    ensures children[0].Text? ==> AddText(state, children[0].text) == Ok(AddChildren(state, [children[0]]))
  {
    AddChildrenResolves(state, [children[0]], prefixes);
    var before := state.stack[|state.stack| - 1].element.children;
    assert before + [children[0]] + children[1..] == before + children;
    assert (before + children)[|before|] == children[0];
    assert before != [] ==> (before + children)[|before| - 1] == before[|before| - 1];
    assert children[0].Text? ==> children[0] == Text(children[0].text);
  }

  /** Reading a written element attaches it, or stops at the first end tag `trimEnd` changes. */
  lemma {:induction false} RunElement(
    e: Element, prefixes: Prefixes, declarations: Pairs, own: Declared, state: State, k: string, maxDepth: nat)
    requires InPlace(e, prefixes, declarations, own, state, maxDepth)
    ensures Run(Write(e, prefixes, declarations) + k, state, maxDepth) ==
            if Closable(e) then Run(k, Attach(state, e), maxDepth) else Err(Malformed)
    decreases e, 1
  {
    var qname := QName(e, prefixes);
    var attributes := WriteAttributes(TagPairs(e, prefixes, declarations));
    if e.children == [] {
      LeafText(qname, attributes, k);
      RunStartTag(e, prefixes, declarations, own, state, k, maxDepth);
    } else {
      var body := WriteChildren(e.children, prefixes);
      var end := "</" + (qname + (">" + k));
      BranchText(qname, attributes, body, k);
      RunStartTag(e, prefixes, declarations, own, state, body + end, maxDepth);
      ChildrenInPlace(e, prefixes, declarations, own, state, maxDepth);
      RunChildren(e.children, prefixes, Opened(e, prefixes, own, state), end, maxDepth);
      RunEndTag(e, prefixes, own, state, k, maxDepth);
    }
  }

  lemma {:induction false} RunChildren(
    children: seq<Node>, prefixes: Prefixes, state: State, k: string, maxDepth: nat)
    requires AreInPlace(children, prefixes, state, maxDepth)
    requires k != "" && k[0] == '<'
    ensures Run(WriteChildren(children, prefixes) + k, state, maxDepth) ==
            if AllClosable(children) then Run(k, AddChildren(state, children), maxDepth) else Err(Malformed)
    decreases children, 0
  {
    if children == [] {
      assert WriteChildren(children, prefixes) + k == k;
      AddNothing(state);
    } else {
      var c := children[0];
      var rest := WriteChildren(children[1..], prefixes) + k;
      var next := AddChildren(state, [c]);
      HeadInPlace(children, prefixes, state, maxDepth);
      RunChildren(children[1..], prefixes, next, k, maxDepth);
      AddChildrenTwice(state, [c], children[1..]);
      assert [c] + children[1..] == children;
      if c.Elem? {
        RunElement(c, prefixes, [], map[], state, rest, maxDepth);
        AppendAssociative(Write(c, prefixes, []), WriteChildren(children[1..], prefixes), k);
      } else {
        RunTextChild(children, prefixes, state, k, maxDepth);
        AppendAssociative(Escape(c.text, false), WriteChildren(children[1..], prefixes), k);
      }
    }
  }

  lemma AddNothing(state: State)
    requires state.stack != []
    ensures AddChildren(state, []) == state
  {
    var children := state.stack[|state.stack| - 1].element.children;
    assert children + [] == children;
  }

  lemma {:induction false} RunTextChild(
    children: seq<Node>, prefixes: Prefixes, state: State, k: string, maxDepth: nat)
    requires AreInPlace(children, prefixes, state, maxDepth) && children != [] && children[0].Text?
    requires k != "" && k[0] == '<'
    ensures var rest := WriteChildren(children[1..], prefixes) + k;
      Run(Escape(children[0].text, false) + rest, state, maxDepth) ==
      Run(rest, AddChildren(state, [children[0]]), maxDepth)
  {
    var c := children[0];
    HeadInPlace(children, prefixes, state, maxDepth);
    EscapedIsInert(c.text, false);
    DecodeUndoesEscape(c.text, false);
    var before := state.stack[|state.stack| - 1].element.children;
    var all := before + children;
    assert all[|before|] == c;
    assert |children| > 1 ==> all[|before| + 1] == children[1];
    assert |children| > 1 ==> children[1].Elem? && Write(children[1], prefixes, [])[0] == '<';
    RunText(Escape(c.text, false), c.text, WriteChildren(children[1..], prefixes) + k, state, maxDepth);
  }
}
