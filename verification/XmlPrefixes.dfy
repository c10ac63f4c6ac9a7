/** The prefixes the serializer invents: distinct, valid names, one for every namespace of the tree. */
module XmlPrefixes {
  import opened Wrappers
  import opened XmlTree
  import opened XmlReader
  import opened XmlWriter

  lemma {:induction false} DecimalIsDigits(n: nat)
    ensures Decimal(n) != "" && forall c :: c in Decimal(n) ==> '0' <= c <= '9'
  {
    if n >= 10 {
      DecimalIsDigits(n / 10);
    }
  }

  lemma {:induction false} DecimalIsInjective(m: nat, n: nat)
    requires Decimal(m) == Decimal(n)
    ensures m == n
  {
    var a, b := Decimal(m), Decimal(n);
    DecimalIsDigits(m / 10);
    DecimalIsDigits(n / 10);
    assert a[|a| - 1] as int == '0' as int + m % 10;
    assert b[|b| - 1] as int == '0' as int + n % 10;
    if m >= 10 && n >= 10 {
      assert Decimal(m / 10) == a[..|a| - 1] && Decimal(n / 10) == b[..|b| - 1];
      DecimalIsInjective(m / 10, n / 10);
    }
  }

  /** The prefix given to the namespace at place `i` of the map. */
  function PrefixAt(i: nat, namespace: string): string {
    if i == 0 then "xml" else if namespace == DAV_NS then "D" else "N" + Decimal(i - 1)
  }

  /** What `collect` keeps: distinct namespaces, and each prefix fixed by its place. */
  predicate IsPrefixMap(prefixes: Prefixes) {
    && prefixes != [] && prefixes[0].0 == XML_NS
    && (forall i :: 0 <= i < |prefixes| ==>
          prefixes[i].0 != "" && prefixes[i].0 != XMLNS_NS && prefixes[i].1 == PrefixAt(i, prefixes[i].0))
    && (forall i, j :: 0 <= i < j < |prefixes| ==> prefixes[i].0 != prefixes[j].0)
  }

  lemma {:induction false} PrefixAtIsName(i: nat, namespace: string)
    ensures IsNcName(PrefixAt(i, namespace)) && PrefixAt(i, namespace) != "xmlns"
  {
    if i > 0 {
      DecimalIsDigits(i - 1);
    }
  }

  /** Prefix invention is injective. */
  lemma {:induction false} PrefixesDiffer(prefixes: Prefixes, i: nat, j: nat)
    requires IsPrefixMap(prefixes) && i < |prefixes| && j < |prefixes| && i != j
    ensures prefixes[i].1 != prefixes[j].1
  {
    var a, b := prefixes[i].1, prefixes[j].1;
    if a == b && i > 0 && j > 0 && prefixes[i].0 != DAV_NS && prefixes[j].0 != DAV_NS {
      assert a[1..] == Decimal(i - 1) && b[1..] == Decimal(j - 1);
      DecimalIsInjective(i - 1, j - 1);
    }
    assert prefixes[i].0 != prefixes[j].0;
    if i > 0 {
      DecimalIsDigits(i - 1);
    }
    if j > 0 {
      DecimalIsDigits(j - 1);
    }
    assert "xml"[0] == 'x' && "D"[0] == 'D';
    assert |"D"| == 1 && |"xml"| == 3;
  }

  lemma {:induction false} PrefixOfEntry(prefixes: Prefixes, i: nat)
    requires i < |prefixes|
    requires forall j :: 0 <= j < i ==> prefixes[j].0 != prefixes[i].0
    ensures PrefixOf(prefixes, prefixes[i].0) == prefixes[i].1
  {
    if i > 0 {
      assert prefixes[1..][i - 1] == prefixes[i];
      PrefixOfEntry(prefixes[1..], i - 1);
    }
  }

  lemma AddPrefixKeeps(prefixes: Prefixes, namespace: string)
    requires IsPrefixMap(prefixes) && namespace != XMLNS_NS
    ensures IsPrefixMap(AddPrefix(prefixes, namespace))
    ensures namespace != "" ==> HasNamespace(AddPrefix(prefixes, namespace), namespace)
    ensures prefixes <= AddPrefix(prefixes, namespace)
  {
    var next := AddPrefix(prefixes, namespace);
    if next != prefixes {
      var n := |prefixes|;
      assert next[n] in next && next[n] == (namespace, PrefixAt(n, namespace));
      forall i | 0 <= i < n
        ensures next[i] == prefixes[i] && prefixes[i].0 != namespace
      {
        assert prefixes[i] in prefixes;
      }
    }
  }

  // ---- What a collected tree may hold

  predicate IsPrefixed(prefixes: Prefixes, namespace: string) {
    namespace == "" || HasNamespace(prefixes, namespace)
  }

  predicate AttributesNamed(attributes: seq<Attribute>, prefixes: Prefixes) {
    forall a :: a in attributes ==> IsNcName(a.name) && IsPrefixed(prefixes, a.namespace)
  }

  predicate Named(e: Element, prefixes: Prefixes)
    decreases e
  {
    && IsNcName(e.name) && IsPrefixed(prefixes, e.namespace)
    && AttributesNamed(e.attributes, prefixes) && !HasBareXmlns(e.attributes)
    && AllNamed(e.children, prefixes)
  }

  predicate AllNamed(children: seq<Node>, prefixes: Prefixes)
    decreases children
  {
    children == [] ||
    ((children[0].Elem? ==> Named(children[0], prefixes)) && AllNamed(children[1..], prefixes))
  }

  lemma PrefixedGrows(small: Prefixes, large: Prefixes, namespace: string)
    requires small <= large && IsPrefixed(small, namespace)
    ensures IsPrefixed(large, namespace)
  {
    if namespace != "" {
      var p :| p in small && p.0 == namespace;
      assert p in large;
    }
  }

  lemma {:induction false} CollectAttributesNames(attributes: seq<Attribute>, prefixes: Prefixes, all: Prefixes)
    requires IsPrefixMap(prefixes) && CollectAttributes(attributes, prefixes).Ok?
    requires CollectAttributes(attributes, prefixes).value <= all
    ensures IsPrefixMap(CollectAttributes(attributes, prefixes).value)
    ensures AttributesNamed(attributes, all)
    decreases |attributes|
  {
    if attributes != [] {
      var a := attributes[0];
      var next := AddPrefix(prefixes, a.namespace);
      AddPrefixKeeps(prefixes, a.namespace);
      CollectAttributesNames(attributes[1..], next, all);
      PrefixedGrows(next, all, a.namespace);
    }
  }

  lemma {:induction false} CollectNames(e: Element, prefixes: Prefixes, all: Prefixes)
    requires IsPrefixMap(prefixes) && Collect(e, prefixes).Ok? && Collect(e, prefixes).value <= all
    ensures IsPrefixMap(Collect(e, prefixes).value) && Named(e, all)
    decreases e
  {
    var next := AddPrefix(prefixes, e.namespace);
    AddPrefixKeeps(prefixes, e.namespace);
    var own := CollectAttributes(e.attributes, next).value;
    CollectAttributesNames(e.attributes, next, all);
    CollectChildrenNames(e.children, own, all);
    PrefixedGrows(next, all, e.namespace);
  }

  lemma {:induction false} CollectChildrenNames(children: seq<Node>, prefixes: Prefixes, all: Prefixes)
    requires IsPrefixMap(prefixes) && CollectChildren(children, prefixes).Ok?
    requires CollectChildren(children, prefixes).value <= all
    ensures IsPrefixMap(CollectChildren(children, prefixes).value) && AllNamed(children, all)
    decreases children
  {
    if children != [] {
      var own := if children[0].Elem? then Collect(children[0], prefixes).value else prefixes;
      if children[0].Elem? {
        CollectNames(children[0], prefixes, all);
      }
      CollectChildrenNames(children[1..], own, all);
    }
  }
}
