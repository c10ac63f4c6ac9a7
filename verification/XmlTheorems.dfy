/** The promise of `serializeXml`: reading what it wrote gives back the tree, and exactly when. */
module XmlTheorems {
  import opened Wrappers
  import opened JsText
  import opened Scan
  import opened XmlTree
  import opened XmlReader
  import opened XmlWriter
  import opened XmlPrefixes
  import opened XmlStartTag
  import opened XmlOpenElement
  import opened XmlRoundTrip
  import opened XmlAccepted

  // ---- The XML declaration

  lemma {:induction false} DeclarationText(written: string)
    ensures XML_DECLARATION + written == DECLARATION_HEAD + ("?>" + ("\n" + written))
    ensures "<?" <= XML_DECLARATION + written && (XML_DECLARATION + written)[0] == '<'
    ensures '>' !in DECLARATION_HEAD
  {
    assert XML_DECLARATION[0] == '<' && XML_DECLARATION[1] == '?';
  }

  lemma {:induction false} RunDeclaration(written: string, maxDepth: nat)
    requires written != "" && written[0] == '<'
    ensures Run(XML_DECLARATION + written, START, maxDepth) == Run(written, START, maxDepth)
  {
    DeclarationText(written);
    SkipDeclaration(DECLARATION_HEAD, "\n" + written);
    RunFromMarkup(XML_DECLARATION + written, START, maxDepth);
    RunNewline(written, maxDepth);
  }

  lemma {:induction false} SkipDeclaration(head: string, tail: string)
    requires '>' !in head
    ensures SkipTo(head + ("?>" + tail), "?>") == Ok(tail)
  {
    var s := head + ("?>" + tail);
    forall i | 0 <= i < |head|
      ensures !("?>" <= s[i..])
    {
      assert s[i..][1] == s[i + 1];
      assert "?>"[1] == '>';
      assert i + 1 < |head| ==> s[i + 1] == head[i + 1];
    }
    assert s[|head|..] == "?>" + tail;
    FindAt(s, "?>", |head|);
    assert s[|head| + 2..] == tail;
  }

  lemma {:induction false} RunNewline(written: string, maxDepth: nat)
    requires written != "" && written[0] == '<'
    ensures Run("\n" + written, START, maxDepth) == Run(written, START, maxDepth)
  {
    assert DecodeEntities("\n") == Ok("\n");
    RunText("\n", "\n", written, START, maxDepth);
  }

  // ---- The root in its place

  lemma {:induction false} DeclarationKey(prefixes: Prefixes, i: nat)
    requires IsPrefixMap(prefixes) && 0 < i < |prefixes|
    ensures IsReadableName("xmlns:" + prefixes[i].1) && IsDeclaration("xmlns:" + prefixes[i].1)
    ensures ("xmlns:" + prefixes[i].1)[6..] == prefixes[i].1
  {
    PrefixAtIsName(i, prefixes[i].0);
    NcNameIsReadable(prefixes[i].1);
  }

  lemma {:induction false} RootPairs(prefixes: Prefixes)
    requires IsPrefixMap(prefixes)
    ensures var pairs := DeclarationPairs(prefixes);
      |pairs| == |prefixes| - 1 &&
      forall i :: 0 <= i < |pairs| ==> pairs[i] == ("xmlns:" + prefixes[i + 1].1, prefixes[i + 1].0)
  {
    DeclarationPairsAre(prefixes[1..]);
  }

  lemma {:induction false} RootPairsDeclare(prefixes: Prefixes, pairs: Pairs)
    requires IsPrefixMap(prefixes) && |pairs| == |prefixes| - 1
    requires forall i :: 0 <= i < |pairs| ==> pairs[i] == ("xmlns:" + prefixes[i + 1].1, prefixes[i + 1].0)
    ensures AreDeclarations(pairs)
  {
    hide IsReadableName, IsDeclaration, IsPrefixMap;
    forall i | 0 <= i < |pairs|
      ensures IsReadableName(pairs[i].0) && IsDeclaration(pairs[i].0)
    {
      DeclarationKey(prefixes, i + 1);
    }
    forall i, j | 0 <= i < j < |pairs|
      ensures pairs[i].0 != pairs[j].0
    {
      DeclarationKeysDiffer(prefixes, i + 1, j + 1);
    }
  }

  lemma {:induction false} DeclarationKeysDiffer(prefixes: Prefixes, i: nat, j: nat)
    requires IsPrefixMap(prefixes) && 0 < i < j < |prefixes|
    ensures "xmlns:" + prefixes[i].1 != "xmlns:" + prefixes[j].1
  {
    PrefixesDiffer(prefixes, i, j);
    DeclarationKey(prefixes, i);
    DeclarationKey(prefixes, j);
  }

  lemma {:induction false} RootDeclarations(prefixes: Prefixes)
    requires IsPrefixMap(prefixes)
    ensures AreDeclarations(DeclarationPairs(prefixes))
    ensures Declarations(DeclarationPairs(prefixes)).Ok?
    ensures Binds(Declarations(DeclarationPairs(prefixes)).value, prefixes, |prefixes| - 1)
  {
    RootPairs(prefixes);
    RootPairsDeclare(prefixes, DeclarationPairs(prefixes));
    DeclaredAre(DeclarationPairs(prefixes), prefixes, |prefixes| - 1);
  }

  lemma {:induction false} RootResolves(prefixes: Prefixes, own: Declared)
    requires IsPrefixMap(prefixes) && Binds(own, prefixes, |prefixes| - 1)
    ensures Resolves([], own, prefixes)
  {
    assert LookupPrefix([], own, "xml") == Some(XML_NS) && LookupPrefix([], own, "") == Some("");
  }

  lemma {:induction false} RootInPlace(root: Element, prefixes: Prefixes, maxDepth: nat)
    requires IsPrefixMap(prefixes) && Named(root, prefixes) && Normal(root) && WithinDepth(root, maxDepth)
    ensures var pairs := DeclarationPairs(prefixes);
      Declarations(pairs).Ok? && InPlace(root, prefixes, pairs, Declarations(pairs).value, START, maxDepth)
  {
    RootDeclarations(prefixes);
    RootResolves(prefixes, Declarations(DeclarationPairs(prefixes)).value);
  }

  /** The whole pass over a written element that stands alone. */
  lemma {:induction false} RunAlone(
    e: Element, prefixes: Prefixes, declarations: Pairs, own: Declared, maxDepth: nat)
    requires InPlace(e, prefixes, declarations, own, START, maxDepth)
    ensures Run(Write(e, prefixes, declarations), START, maxDepth) == if Closable(e) then Ok(e) else Err(Malformed)
  {
    AppendNothing(Write(e, prefixes, declarations));
    RunElement(e, prefixes, declarations, own, START, "", maxDepth);
  }

  lemma {:induction false} RunRoot(root: Element, prefixes: Prefixes, maxDepth: nat)
    requires IsPrefixMap(prefixes) && Named(root, prefixes) && Normal(root) && WithinDepth(root, maxDepth)
    ensures Run(Write(root, prefixes, DeclarationPairs(prefixes)), START, maxDepth) ==
            if Closable(root) then Ok(root) else Err(Malformed)
  {
    RootInPlace(root, prefixes, maxDepth);
    var declarations := DeclarationPairs(prefixes);
    RunAlone(root, prefixes, declarations, Declarations(declarations).value, maxDepth);
  }

  lemma AppendNothing(s: string)
    ensures s + "" == s
  {
  }

  lemma {:induction false} SerializedIs(root: Element)
    requires Serialize(root).Ok?
    ensures var prefixes := Collect(root, INITIAL_PREFIXES).value;
      && IsPrefixMap(prefixes) && Named(root, prefixes)
      && Serialize(root) == Ok(XML_DECLARATION + Write(root, prefixes, DeclarationPairs(prefixes)))
  {
    assert XML_NS != XMLNS_NS by {
      assert |XMLNS_NS| == 29 && |XML_NS| == 36;
    }
    CollectNames(root, INITIAL_PREFIXES, Collect(root, INITIAL_PREFIXES).value);
  }

  /** Reading a written tree in the reader's normal form, whatever its size. */
  lemma {:induction false} RunWritten(root: Element, maxDepth: nat)
    requires Serialize(root).Ok? && Normal(root) && WithinDepth(root, maxDepth)
    ensures Run(Serialize(root).value, START, maxDepth) == if Closable(root) then Ok(root) else Err(Malformed)
  {
    SerializedIs(root);
    var prefixes := Collect(root, INITIAL_PREFIXES).value;
    var declarations := DeclarationPairs(prefixes);
    StartsWithAngle(root, prefixes, declarations);
    RunDeclaration(Write(root, prefixes, declarations), maxDepth);
    RunRoot(root, prefixes, maxDepth);
  }

  lemma StartsWithAngle(e: Element, prefixes: Prefixes, declarations: Pairs)
    ensures Write(e, prefixes, declarations) != "" && Write(e, prefixes, declarations)[0] == '<'
  {
  }

  /**
   * Parsing a serialized tree gives it back exactly when the document fits the size limit, the tree
   * fits the depth limit, its texts are non-empty and never adjacent, its attributes have distinct
   * expanded names, and no element with children has a name ending in ECMAScript white space.
   */
  lemma {:induction false} RoundTrip(root: Element, maxBytes: nat, maxDepth: nat)
    requires Serialize(root).Ok?
    ensures Parse(Serialize(root).value, maxBytes, maxDepth) == Ok(root) <==>
            && Utf8Length(Serialize(root).value) <= maxBytes
            && WithinDepth(root, maxDepth) && Normal(root) && Closable(root)
  {
    var text := Serialize(root).value;
    assert text[0] == '<';
    if Parse(text, maxBytes, maxDepth) == Ok(root) {
      AcceptedIsGood(text, maxBytes, maxDepth);
    }
    if Normal(root) && WithinDepth(root, maxDepth) {
      RunWritten(root, maxDepth);
    }
  }

  /** A valid tree the promise fails for: U+3000 ends the name of an element with a child. */
  const IDEOGRAPHIC_SPACE_NAME: Element := Elem("", "a\U{3000}", [], [Text("x")])

  lemma {:induction false} TrailingSpaceNameCollects()
    ensures Collect(IDEOGRAPHIC_SPACE_NAME, INITIAL_PREFIXES) == Ok(INITIAL_PREFIXES)
  {
    assert CollectChildren(IDEOGRAPHIC_SPACE_NAME.children, INITIAL_PREFIXES) == Ok(INITIAL_PREFIXES);
  }

  /** A tree whose names, values and namespaces can be written is serialized. */
  lemma WritableSerializes(root: Element, prefixes: Prefixes)
    requires Collect(root, INITIAL_PREFIXES) == Ok(prefixes) && IsWritable(root)
    requires forall p :: p in prefixes ==> IsXmlText(p.0)
    ensures Serialize(root).Ok?
  {
  }

  lemma XmlNamespaceIsText()
    ensures forall p :: p in INITIAL_PREFIXES ==> IsXmlText(p.0)
  {
    assert forall c :: c in XML_NS ==> ' ' < c <= 'z';
  }

  lemma {:induction false} TrailingSpaceNameIsWritable()
    ensures Serialize(IDEOGRAPHIC_SPACE_NAME).Ok?
  {
    TrailingSpaceNameCollects();
    assert AllWritable(IDEOGRAPHIC_SPACE_NAME.children);
    XmlNamespaceIsText();
    WritableSerializes(IDEOGRAPHIC_SPACE_NAME, INITIAL_PREFIXES);
  }

  lemma {:induction false} TrailingSpaceNameIsNormal()
    ensures Normal(IDEOGRAPHIC_SPACE_NAME) && !Closable(IDEOGRAPHIC_SPACE_NAME)
    ensures forall maxDepth: nat :: maxDepth >= 1 ==> WithinDepth(IDEOGRAPHIC_SPACE_NAME, maxDepth)
  {
    var e := IDEOGRAPHIC_SPACE_NAME;
    assert e.name[|e.name| - 1] == '\U{3000}';
    assert MergedText(e.children) && AllNormal(e.children[1..]);
  }

  lemma {:induction false} RoundTripFailsForTrailingSpaceName(maxBytes: nat, maxDepth: nat)
    ensures Serialize(IDEOGRAPHIC_SPACE_NAME).Ok?
    ensures Parse(Serialize(IDEOGRAPHIC_SPACE_NAME).value, maxBytes, maxDepth) != Ok(IDEOGRAPHIC_SPACE_NAME)
    ensures maxDepth >= 1 ==> Run(Serialize(IDEOGRAPHIC_SPACE_NAME).value, START, maxDepth) == Err(Malformed)
  {
    TrailingSpaceNameIsWritable();
    TrailingSpaceNameIsNormal();
    RoundTrip(IDEOGRAPHIC_SPACE_NAME, maxBytes, maxDepth);
    if maxDepth >= 1 {
      RunWritten(IDEOGRAPHIC_SPACE_NAME, maxDepth);
    }
  }

  // ---- What was read can be written again

  lemma {:induction false} NameableAttributesCollect(attributes: seq<Attribute>, prefixes: Prefixes)
    requires prefixes != [] && AttributesNameable(attributes)
    ensures CollectAttributes(attributes, prefixes).Ok? && !HasBareXmlns(attributes)
    decreases |attributes|
  {
    if attributes != [] {
      NameableAttributesCollect(attributes[1..], AddPrefix(prefixes, attributes[0].namespace));
      assert attributes[0] in attributes;
    }
    assert forall a :: a in attributes ==> IsNameable(a);
  }

  lemma {:induction false} NameableCollects(e: Element, prefixes: Prefixes)
    requires prefixes != [] && Nameable(e)
    ensures Collect(e, prefixes).Ok?
    decreases e
  {
    var next := AddPrefix(prefixes, e.namespace);
    NameableAttributesCollect(e.attributes, next);
    NameableChildrenCollect(e.children, CollectAttributes(e.attributes, next).value);
  }

  lemma {:induction false} NameableChildrenCollect(children: seq<Node>, prefixes: Prefixes)
    requires prefixes != [] && AllNameable(children)
    ensures CollectChildren(children, prefixes).Ok?
    decreases children
  {
    if children != [] {
      if children[0].Elem? {
        NameableCollects(children[0], prefixes);
      }
      NameableChildrenCollect(children[1..],
        if children[0].Elem? then Collect(children[0], prefixes).value else prefixes);
    }
  }

  // ---- Exactly which trees are written

  lemma {:induction false} CollectedAttributesAreNameable(attributes: seq<Attribute>, prefixes: Prefixes)
    requires prefixes != [] && CollectAttributes(attributes, prefixes).Ok? && !HasBareXmlns(attributes)
    ensures AttributesNameable(attributes)
    decreases |attributes|
  {
    hide IsNcName;
    if attributes != [] {
      var rest := attributes[1..];
      assert !HasBareXmlns(rest) by {
        assert forall a :: a in rest ==> a in attributes;
      }
      CollectedAttributesAreNameable(rest, AddPrefix(prefixes, attributes[0].namespace));
      assert attributes == [attributes[0]] + rest && attributes[0] in attributes;
    }
  }

  lemma {:induction false} CollectedIsNameable(e: Element, prefixes: Prefixes)
    requires prefixes != [] && Collect(e, prefixes).Ok?
    ensures Nameable(e)
    decreases e
  {
    hide IsNcName;
    var next := AddPrefix(prefixes, e.namespace);
    CollectedAttributesAreNameable(e.attributes, next);
    CollectedChildrenAreNameable(e.children, CollectAttributes(e.attributes, next).value);
  }

  lemma {:induction false} CollectedChildrenAreNameable(children: seq<Node>, prefixes: Prefixes)
    requires prefixes != [] && CollectChildren(children, prefixes).Ok?
    ensures AllNameable(children)
    decreases children
  {
    if children != [] {
      if children[0].Elem? {
        CollectedIsNameable(children[0], prefixes);
      }
      CollectedChildrenAreNameable(children[1..],
        if children[0].Elem? then Collect(children[0], prefixes).value else prefixes);
    }
  }

  /** Every namespace of the tree can be written. */
  predicate HasTextNamespaces(e: Element)
    decreases e
  {
    && IsXmlText(e.namespace) && (forall a :: a in e.attributes ==> IsXmlText(a.namespace))
    && AllTextNamespaces(e.children)
  }

  predicate AllTextNamespaces(children: seq<Node>)
    decreases children
  {
    children == [] || ((children[0].Elem? ==> HasTextNamespaces(children[0])) && AllTextNamespaces(children[1..]))
  }

  predicate AreTexts(prefixes: Prefixes) {
    forall p :: p in prefixes ==> IsXmlText(p.0)
  }

  lemma {:induction false} AddedTexts(prefixes: Prefixes, namespace: string)
    requires prefixes != []
    ensures AreTexts(AddPrefix(prefixes, namespace)) <==> AreTexts(prefixes) && IsXmlText(namespace)
  {
    var next := AddPrefix(prefixes, namespace);
    if namespace != "" && !HasNamespace(prefixes, namespace) {
      assert next[|prefixes|] in next && forall p :: p in prefixes ==> p in next;
    }
  }

  lemma {:induction false} AttributeTexts(attributes: seq<Attribute>, prefixes: Prefixes)
    requires prefixes != [] && CollectAttributes(attributes, prefixes).Ok?
    ensures AreTexts(CollectAttributes(attributes, prefixes).value) <==>
      AreTexts(prefixes) && forall a :: a in attributes ==> IsXmlText(a.namespace)
    decreases |attributes|
  {
    hide AreTexts, IsXmlText, IsNcName, Decimal;
    if attributes != [] {
      AddedTexts(prefixes, attributes[0].namespace);
      AttributeTexts(attributes[1..], AddPrefix(prefixes, attributes[0].namespace));
      assert attributes == [attributes[0]] + attributes[1..];
    }
  }

  lemma {:induction false} CollectedTexts(e: Element, prefixes: Prefixes)
    requires prefixes != [] && Collect(e, prefixes).Ok?
    ensures AreTexts(Collect(e, prefixes).value) <==> AreTexts(prefixes) && HasTextNamespaces(e)
    decreases e
  {
    hide AreTexts, IsXmlText, IsNcName, Decimal;
    var next := AddPrefix(prefixes, e.namespace);
    AddedTexts(prefixes, e.namespace);
    AttributeTexts(e.attributes, next);
    ChildrenTexts(e.children, CollectAttributes(e.attributes, next).value);
  }

  lemma {:induction false} ChildrenTexts(children: seq<Node>, prefixes: Prefixes)
    requires prefixes != [] && CollectChildren(children, prefixes).Ok?
    ensures AreTexts(CollectChildren(children, prefixes).value) <==> AreTexts(prefixes) && AllTextNamespaces(children)
    decreases children
  {
    hide AreTexts;
    if children != [] {
      if children[0].Elem? {
        CollectedTexts(children[0], prefixes);
      }
      ChildrenTexts(children[1..], if children[0].Elem? then Collect(children[0], prefixes).value else prefixes);
    }
  }

  /**
   * A tree is written exactly when its names are valid, none of them a declaration's, and its texts,
   * values and namespaces have only characters of XML; a bad name is reported before a bad character.
   */
  lemma {:induction false} SerializesExactly(root: Element)
    ensures Serialize(root).Ok? <==> Nameable(root) && IsWritable(root) && HasTextNamespaces(root)
    ensures Serialize(root) == Err(BadName) <==> !Nameable(root)
  {
    hide IsWritable, Nameable, HasTextNamespaces, Collect, Write;
    XmlNamespaceIsText();
    if Nameable(root) {
      NameableCollects(root, INITIAL_PREFIXES);
      CollectedTexts(root, INITIAL_PREFIXES);
    } else if Collect(root, INITIAL_PREFIXES).Ok? {
      CollectedIsNameable(root, INITIAL_PREFIXES);
    } else {
      OnlyBadNames(root, INITIAL_PREFIXES);
    }
  }

  lemma {:induction false} OnlyBadNames(e: Element, prefixes: Prefixes)
    requires prefixes != [] && Collect(e, prefixes).Err?
    ensures Collect(e, prefixes) == Err(BadName)
    decreases e
  {
    hide IsNcName, Decimal;
    var next := AddPrefix(prefixes, e.namespace);
    if !HasBareXmlns(e.attributes) && IsNcName(e.name) && e.namespace != XMLNS_NS {
      OnlyBadAttributes(e.attributes, next);
      if CollectAttributes(e.attributes, next).Ok? {
        OnlyBadChildren(e.children, CollectAttributes(e.attributes, next).value);
      }
    }
  }

  lemma {:induction false} OnlyBadAttributes(attributes: seq<Attribute>, prefixes: Prefixes)
    requires prefixes != []
    ensures CollectAttributes(attributes, prefixes).Err? ==> CollectAttributes(attributes, prefixes) == Err(BadName)
    decreases |attributes|
  {
    hide IsNcName;
    if attributes != [] {
      OnlyBadAttributes(attributes[1..], AddPrefix(prefixes, attributes[0].namespace));
    }
  }

  lemma {:induction false} OnlyBadChildren(children: seq<Node>, prefixes: Prefixes)
    requires prefixes != []
    ensures CollectChildren(children, prefixes).Err? ==> CollectChildren(children, prefixes) == Err(BadName)
    decreases children
  {
    if children != [] {
      if children[0].Elem? {
        if Collect(children[0], prefixes).Err? {
          OnlyBadNames(children[0], prefixes);
        } else {
          OnlyBadChildren(children[1..], Collect(children[0], prefixes).value);
        }
      } else {
        OnlyBadChildren(children[1..], prefixes);
      }
    }
  }

  /**
   * A tree the reader produced is never refused for its names, and when its characters can be
   * written, reading the text again gives the same tree exactly when it is within the size limit.
   */
  lemma {:induction false} ReadWriteRead(text: string, maxBytes: nat, maxDepth: nat, again: nat)
    requires Parse(text, maxBytes, maxDepth).Ok?
    ensures var e := Parse(text, maxBytes, maxDepth).value;
      && Serialize(e) != Err(BadName)
      && (Serialize(e).Ok? ==>
            (Parse(Serialize(e).value, again, maxDepth) == Ok(e) <==> Utf8Length(Serialize(e).value) <= again))
  {
    AcceptedIsGood(text, maxBytes, maxDepth);
    var e := Parse(text, maxBytes, maxDepth).value;
    NameableCollects(e, INITIAL_PREFIXES);
    if Serialize(e).Ok? {
      RoundTrip(e, again, maxDepth);
    }
  }
}
