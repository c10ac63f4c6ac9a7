/** The map of prefixes that `serializeXml` fills while it walks the tree (`caldav/xml.ts`). */
module XmlPrefixTable {
  import opened Wrappers
  import opened XmlTree
  import opened XmlWriter

  /** A map that keeps the order in which namespaces were added. */
  class PrefixTable {
    var entries: Prefixes

    constructor ()
      ensures entries == INITIAL_PREFIXES
    {
      entries := INITIAL_PREFIXES;
    }

    /** One name of the tree: refused, or its namespace has a prefix from now on. */
    method AddName(namespace: string, name: string) returns (ok: bool)
      requires entries != []
      modifies this
      ensures ok <==> IsNcName(name) && namespace != XMLNS_NS
      ensures entries != [] && entries == if ok then AddPrefix(old(entries), namespace) else old(entries)
    {
      if !IsNcName(name) || namespace == XMLNS_NS {
        return false;
      }
      entries := AddPrefix(entries, namespace);
      ok := true;
    }

    method AddAttributes(attributes: seq<Attribute>) returns (ok: bool)
      requires entries != []
      modifies this
      ensures ok <==> CollectAttributes(attributes, old(entries)).Ok?
      ensures ok ==> entries != [] && entries == CollectAttributes(attributes, old(entries)).value
    {
      hide IsNcName, AddPrefix;
      assert attributes[0..] == attributes;
      for i := 0 to |attributes|
        invariant entries != []
        invariant CollectAttributes(attributes, old(entries)) == CollectAttributes(attributes[i..], entries)
      {
        assert attributes[i..][1..] == attributes[i + 1..];
        var added := AddName(attributes[i].namespace, attributes[i].name);
        if !added {
          return false;
        }
      }
      ok := true;
    }

    /** `collect`: the whole tree, each element before its children. */
    method AddElement(e: Element) returns (ok: bool)
      requires entries != []
      modifies this
      ensures ok <==> Collect(e, old(entries)).Ok?
      ensures ok ==> entries != [] && entries == Collect(e, old(entries)).value
      decreases e, 0
    {
      hide IsNcName, AddPrefix, CollectAttributes;
      if HasBareXmlns(e.attributes) {
        return false;
      }
      ok := AddName(e.namespace, e.name);
      if !ok {
        return;
      }
      ok := AddAttributes(e.attributes);
      if !ok {
        return;
      }
      ok := AddChildren(e.children);
    }

    method AddChildren(children: seq<Node>) returns (ok: bool)
      requires entries != []
      modifies this
      ensures ok <==> CollectChildren(children, old(entries)).Ok?
      ensures ok ==> entries == CollectChildren(children, old(entries)).value
      decreases children, 1
    {
      hide Collect;
      if children == [] {
        return true;
      }
      if children[0].Elem? {
        ok := AddElement(children[0]);
        if !ok {
          return;
        }
      }
      ok := AddChildren(children[1..]);
    }
  }

  lemma {:induction false} AttributesFail(attributes: seq<Attribute>, prefixes: Prefixes)
    requires prefixes != [] && CollectAttributes(attributes, prefixes).Err?
    ensures CollectAttributes(attributes, prefixes).error == BadName
    decreases |attributes|
  {
    var a := attributes[0];
    if IsNcName(a.name) && a.namespace != XMLNS_NS {
      AttributesFail(attributes[1..], AddPrefix(prefixes, a.namespace));
    }
  }

  lemma {:induction false} ElementFails(e: Element, prefixes: Prefixes)
    requires prefixes != [] && Collect(e, prefixes).Err?
    ensures Collect(e, prefixes).error == BadName
    decreases e, 0
  {
    if !HasBareXmlns(e.attributes) && IsNcName(e.name) && e.namespace != XMLNS_NS {
      var own := CollectAttributes(e.attributes, AddPrefix(prefixes, e.namespace));
      if own.Err? {
        AttributesFail(e.attributes, AddPrefix(prefixes, e.namespace));
      } else {
        ChildrenFail(e.children, own.value);
      }
    }
  }

  lemma {:induction false} ChildrenFail(children: seq<Node>, prefixes: Prefixes)
    requires prefixes != [] && CollectChildren(children, prefixes).Err?
    ensures CollectChildren(children, prefixes).error == BadName
    decreases children, 1
  {
    var own := if children[0].Elem? then Collect(children[0], prefixes) else Ok(prefixes);
    if own.Err? {
      ElementFails(children[0], prefixes);
    } else {
      ChildrenFail(children[1..], own.value);
    }
  }

  /** `serializeXml`: the table is filled first, then the document is written by recursion. */
  method SerializeXml(root: Element) returns (r: WriteResult<string>)
    ensures r == Serialize(root)
  {
    hide Collect, IsWritable, Write;
    var table := new PrefixTable();
    var ok := table.AddElement(root);
    if !ok {
      ElementFails(root, INITIAL_PREFIXES);
      return Err(BadName);
    }
    if !IsWritable(root) || exists p :: p in table.entries && !IsXmlText(p.0) {
      return Err(BadCharacter);
    }
    r := Ok(XML_DECLARATION + Write(root, table.entries, DeclarationPairs(table.entries)));
  }
}
