/** Putting a written start tag into the tree restores the element without its children. */
module XmlOpenElement {
  import opened Wrappers
  import opened Scan
  import opened XmlTree
  import opened XmlReader
  import opened XmlWriter
  import opened XmlPrefixes
  import opened XmlStartTag

  lemma {:induction false} AttributePairsAre(prefixes: Prefixes, attributes: seq<Attribute>)
    ensures |AttributePairs(prefixes, attributes)| == |attributes|
    ensures forall i :: 0 <= i < |attributes| ==>
      AttributePairs(prefixes, attributes)[i] ==
      (Qualify(prefixes, attributes[i].namespace, attributes[i].name), attributes[i].value)
  {
    if attributes != [] {
      AttributePairsAre(prefixes, attributes[1..]);
    }
  }

  /** Where a start tag is written and read: the prefix map, and a scope that resolves it. */
  predicate InScope(prefixes: Prefixes, stack: seq<Open>, own: Declared, attributes: seq<Attribute>) {
    && IsPrefixMap(prefixes) && Resolves(stack, own, prefixes)
    && AttributesNamed(attributes, prefixes) && !HasBareXmlns(attributes)
    && DistinctNames(attributes)
  }

  lemma {:induction false} BareNameIsNoDeclaration(name: string)
    requires IsNcName(name) && name != "xmlns"
    ensures !IsDeclaration(name)
  {
    NcNameIsReadable(name);
    if "xmlns:" <= name {
      DeclarationColon(name);
    }
  }

  lemma {:induction false} AttributeStandsFor(
    prefixes: Prefixes, stack: seq<Open>, own: Declared, attributes: seq<Attribute>, i: nat)
    requires InScope(prefixes, stack, own, attributes) && i < |attributes|
    ensures var a := attributes[i];
      && StandsFor(Qualify(prefixes, a.namespace, a.name), stack, own, a.namespace, a.name)
      && !IsDeclaration(Qualify(prefixes, a.namespace, a.name))
  {
    var a := attributes[i];
    assert a in attributes;
    QualifiedResolves(prefixes, stack, own, a.namespace, a.name);
    if a.namespace == "" {
      BareNameIsNoDeclaration(a.name);
    }
  }

  lemma {:induction false} AttributeKeysDiffer(
    prefixes: Prefixes, stack: seq<Open>, own: Declared, attributes: seq<Attribute>, i: nat, j: nat)
    requires InScope(prefixes, stack, own, attributes) && i < j < |attributes|
    ensures Qualify(prefixes, attributes[i].namespace, attributes[i].name) !=
            Qualify(prefixes, attributes[j].namespace, attributes[j].name)
  {
    AttributeStandsFor(prefixes, stack, own, attributes, i);
    AttributeStandsFor(prefixes, stack, own, attributes, j);
    assert (attributes[i].namespace, attributes[i].name) != (attributes[j].namespace, attributes[j].name);
  }

  /** Written declarations: each a readable name that declares, no two alike. */
  predicate AreDeclarations(declarations: Pairs) {
    && AreReadable(declarations) && DistinctKeys(declarations)
    && forall d :: d in declarations ==> IsDeclaration(d.0)
  }

  lemma {:induction false} WrittenKeys(
    prefixes: Prefixes, stack: seq<Open>, own: Declared, declarations: Pairs, attributes: seq<Attribute>)
    requires InScope(prefixes, stack, own, attributes) && AreDeclarations(declarations)
    ensures var pairs := AttributePairs(prefixes, attributes);
      && AreReadable(declarations + pairs) && DistinctKeys(declarations + pairs)
      && forall a :: a in pairs ==> !IsDeclaration(a.0)
  {
    var pairs := AttributePairs(prefixes, attributes);
    var all := declarations + pairs;
    AttributePairsAre(prefixes, attributes);
    forall i | 0 <= i < |pairs|
      ensures IsReadableName(pairs[i].0) && !IsDeclaration(pairs[i].0)
    {
      AttributeStandsFor(prefixes, stack, own, attributes, i);
    }
    forall i, j | 0 <= i < j < |pairs|
      ensures pairs[i].0 != pairs[j].0
    {
      AttributeKeysDiffer(prefixes, stack, own, attributes, i, j);
    }
    DistinctKeysAppend(declarations, pairs);
  }

  lemma DistinctKeysAppend(declarations: Pairs, pairs: Pairs)
    requires DistinctKeys(declarations) && DistinctKeys(pairs)
    requires forall d :: d in declarations ==> IsDeclaration(d.0)
    requires forall a :: a in pairs ==> !IsDeclaration(a.0)
    ensures DistinctKeys(declarations + pairs)
  {
    var all := declarations + pairs;
    forall i, j | 0 <= i < j < |all|
      ensures all[i].0 != all[j].0
    {
      if i < |declarations| <= j {
        assert all[i] in declarations && all[j] in pairs;
      }
    }
  }

  lemma {:induction false} DeclarationsResolveToNothing(stack: seq<Open>, own: Declared, declarations: Pairs)
    requires forall d :: d in declarations ==> IsDeclaration(d.0)
    ensures ResolveAttributes(stack, own, declarations) == Ok([])
  {
    if declarations != [] {
      var n := |declarations| - 1;
      assert declarations[n] in declarations;
      DeclarationsResolveToNothing(stack, own, declarations[..n]);
    }
  }

  /** One more attribute resolves to what it was written from. */
  lemma {:induction false} ResolveLast(
    stack: seq<Open>, own: Declared, attributes: seq<Attribute>, n: nat, pairs: Pairs, qname: string)
    requires n < |attributes| && pairs != [] && DistinctNames(attributes)
    requires ResolveAttributes(stack, own, pairs[..|pairs| - 1]) == Ok(attributes[..n])
    requires pairs[|pairs| - 1] == (qname, attributes[n].value)
    requires StandsFor(qname, stack, own, attributes[n].namespace, attributes[n].name) && !IsDeclaration(qname)
    ensures ResolveAttributes(stack, own, pairs) == Ok(attributes[..n + 1])
  {
    var a := attributes[n];
    assert ResolveAttribute(stack, own, qname, a.value) == Ok(a);
    assert (a.namespace, a.name) !in ExpandedNames(attributes[..n]);
    assert attributes[..n + 1] == attributes[..n] + [a];
  }

  lemma {:induction false} WrittenAttributesResolve(
    prefixes: Prefixes, stack: seq<Open>, own: Declared, declarations: Pairs, attributes: seq<Attribute>, n: nat)
    requires InScope(prefixes, stack, own, attributes) && n <= |attributes|
    requires forall d :: d in declarations ==> IsDeclaration(d.0)
    requires |AttributePairs(prefixes, attributes)| == |attributes|
    ensures ResolveAttributes(stack, own, declarations + AttributePairs(prefixes, attributes)[..n]) ==
            Ok(attributes[..n])
  {
    var written := AttributePairs(prefixes, attributes);
    var pairs := declarations + written[..n];
    if n == 0 {
      assert pairs == declarations;
      DeclarationsResolveToNothing(stack, own, declarations);
    } else {
      AttributePairsAre(prefixes, attributes);
      WrittenAttributesResolve(prefixes, stack, own, declarations, attributes, n - 1);
      assert pairs[..|pairs| - 1] == declarations + written[..n - 1];
      AttributeStandsFor(prefixes, stack, own, attributes, n - 1);
      ResolveLast(stack, own, attributes, n - 1, pairs, written[n - 1].0);
    }
  }

  lemma {:induction false} AllAttributesResolve(
    prefixes: Prefixes, stack: seq<Open>, own: Declared, declarations: Pairs, attributes: seq<Attribute>)
    requires InScope(prefixes, stack, own, attributes)
    requires forall d :: d in declarations ==> IsDeclaration(d.0)
    ensures ResolveAttributes(stack, own, declarations + AttributePairs(prefixes, attributes)) == Ok(attributes)
  {
    AttributePairsAre(prefixes, attributes);
    WrittenAttributesResolve(prefixes, stack, own, declarations, attributes, |attributes|);
    var written := AttributePairs(prefixes, attributes);
    assert written[..|attributes|] == written && attributes[..|attributes|] == attributes;
  }

  /** The element as its start tag gives it. */
  function Bare(e: Element): Element {
    e.(children := [])
  }

  /** The start tag of `e`, read with `declarations` that bind `own`, puts `Bare(e)` in place. */
  lemma {:induction false} OpenWritten(
    e: Element, prefixes: Prefixes, declarations: Pairs, own: Declared, state: State, tag: Tag, maxDepth: nat)
    requires InScope(prefixes, state.stack, own, e.attributes) && AreDeclarations(declarations)
    requires IsNcName(e.name) && IsPrefixed(prefixes, e.namespace)
    requires Declarations(declarations) == Ok(own)
    requires tag.attributes == declarations + AttributePairs(prefixes, e.attributes)
    requires |state.stack| < maxDepth && (state.stack == [] ==> state.root.None?)
    ensures var qname := Qualify(prefixes, e.namespace, e.name);
      OpenElement(state, qname, tag, maxDepth) ==
      Ok(if tag.selfClosing then Attach(state, Bare(e))
         else state.(stack := state.stack + [Open(qname, Bare(e), own)]))
  {
    WrittenKeys(prefixes, state.stack, own, declarations, e.attributes);
    AttributesDeclareNothing(declarations, AttributePairs(prefixes, e.attributes));
    QualifiedResolves(prefixes, state.stack, own, e.namespace, e.name);
    AllAttributesResolve(prefixes, state.stack, own, declarations, e.attributes);
  }
}
