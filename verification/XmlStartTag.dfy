/** Reading a written start tag gives back the names, values and namespaces it was written from. */
module XmlStartTag {
  import opened Wrappers
  import opened Scan
  import opened XmlTree
  import opened XmlReader
  import opened XmlWriter
  import opened XmlEscaping
  import opened XmlPrefixes

  type Pairs = seq<(string, string)>

  /** A name the attribute loop reads whole. */
  predicate IsReadableName(name: string) {
    name != "" && forall c :: c in name ==> InClass(c, AttributeName)
  }

  predicate AreReadable(pairs: Pairs) {
    forall a :: a in pairs ==> IsReadableName(a.0)
  }

  lemma NcNameIsReadable(name: string)
    requires IsNcName(name)
    ensures IsReadableName(name) && ':' !in name
    ensures forall c :: c in name ==> InClass(c, TagName)
  {
  }

  function TagEnd(selfClosing: bool): string {
    if selfClosing then "/>" else ">"
  }

  lemma SkipNothing(s: string)
    requires s != "" && !IsSpace(s[0])
    ensures SkipSpace(s) == s
  {
  }

  lemma SkipOneSpace(s: string)
    requires s != "" && !IsSpace(s[0])
    ensures SkipSpace(" " + s) == s && SkipSpace(s) == s
  {
    var spaced := " " + s;
    assert spaced[1..] == s;
    assert Span(s, Space) == 0 && Span(spaced, Space) == 1;
  }

  lemma {:induction false} ReadQuotedText(raw: string, value: string, tail: string)
    requires '"' !in raw && '<' !in raw && DecodeEntities(raw) == Ok(value)
    ensures ReadQuoted("\"" + (raw + ("\"" + tail))) == Ok((value, tail))
  {
    var after := raw + ("\"" + tail);
    assert ("\"" + after)[1..] == after;
    IndexOfAppend(raw, "\"" + tail, '"');
    assert after[..|raw|] == raw;
    assert after[|raw| + 1..] == tail;
  }

  lemma {:induction false} ReadWrittenValue(value: string, tail: string)
    ensures ReadQuoted("\"" + Escape(value, true) + "\"" + tail) == Ok((value, tail))
  {
    var escaped := Escape(value, true);
    EscapedIsInert(value, true);
    DecodeUndoesEscape(value, true);
    ReadQuotedText(escaped, value, tail);
    QuotedText(escaped, tail);
  }

  lemma QuotedText(raw: string, tail: string)
    ensures "\"" + raw + "\"" + tail == "\"" + (raw + ("\"" + tail))
  {
  }

  lemma {:induction false} SpanAppend(a: string, b: string, class_: CharClass)
    requires forall c :: c in a ==> InClass(c, class_)
    requires b == "" || !InClass(b[0], class_)
    ensures Span(a + b, class_) == |a|
  {
    if a == "" {
      assert a + b == b;
    } else {
      SpanAppend(a[1..], b, class_);
      assert (a + b)[1..] == a[1..] + b;
    }
  }

  lemma {:induction false} TakeName(name: string, rest: string)
    requires IsReadableName(name) && rest != "" && rest[0] == '='
    ensures var s := name + rest; var n := Span(s, AttributeName);
      n == |name| && s[..n] == name && s[n..] == rest && SkipSpace(s[n..]) == rest
  {
    SpanAppend(name, rest, AttributeName);
  }

  lemma {:induction false} ReadNamed(s: string, name: string, s2: string, value: string, tail: string)
    requires IsReadableName(name) && s == name + s2
    requires s2 != "" && s2[0] == '='
    requires ReadQuoted(SkipSpace(s2[1..])) == Ok((value, tail))
    ensures ReadAttribute(s) == Ok(((name, value), tail))
  {
    TakeName(name, s2);
    SkipNothing(s2);
    assert ReadEquals(s2) == Ok(SkipSpace(s2[1..]));
    assert ReadAttributeName(s) == Ok((name, SkipSpace(s2[1..])));
  }

  lemma {:induction false} ReadSpaced(s: string, attribute: RawAttribute, tail: string)
    requires s != "" && InClass(s[0], AttributeName) && ReadAttribute(s) == Ok((attribute, tail))
    requires ReadAttributes(tail).Ok?
    ensures ReadAttributes(" " + s) ==
            Ok(ReadAttributes(tail).value.(attributes := [attribute] + ReadAttributes(tail).value.attributes))
  {
    SkipOneSpace(s);
  }

  /** One written attribute at the head of the text to read. */
  lemma {:induction false} ReadWrittenAttribute(name: string, value: string, tail: string)
    requires IsReadableName(name) && ReadAttributes(tail).Ok?
    ensures ReadAttributes(WriteAttribute(name, value) + tail) ==
            Ok(ReadAttributes(tail).value.(attributes := [(name, value)] + ReadAttributes(tail).value.attributes))
  {
    ReadWrittenValue(value, tail);
    var escaped := Escape(value, true);
    var quoted := "\"" + escaped + "\"" + tail;
    var s := name + ("=" + quoted);
    assert ("=" + quoted)[1..] == quoted;
    SkipNothing(quoted);
    ReadNamed(s, name, "=" + quoted, value, tail);
    assert s[0] == name[0] && name[0] in name;
    ReadSpaced(s, (name, value), tail);
    WrittenAttributeIs(name, escaped, tail);
  }

  lemma WrittenAttributeIs(name: string, escaped: string, tail: string)
    ensures " " + name + "=\"" + escaped + "\"" + tail == " " + (name + ("=" + ("\"" + escaped + "\"" + tail)))
  {
  }

  lemma {:induction false} ReadTagEnd(selfClosing: bool, k: string)
    ensures ReadAttributes(TagEnd(selfClosing) + k) == Ok(Tag([], selfClosing, k))
  {
    var end := TagEnd(selfClosing) + k;
    assert SkipSpace(end) == end && end[|TagEnd(selfClosing)|..] == k;
  }

  lemma AppendAssociative(a: string, b: string, c: string)
    ensures a + b + c == a + (b + c)
  {
  }

  lemma HeadAndTail(pairs: Pairs)
    requires pairs != []
    ensures [(pairs[0].0, pairs[0].1)] + pairs[1..] == pairs
  {
  }

  lemma {:induction false} WriteAttributesCons(pairs: Pairs, end: string)
    requires pairs != []
    ensures WriteAttributes(pairs) + end ==
            WriteAttribute(pairs[0].0, pairs[0].1) + (WriteAttributes(pairs[1..]) + end)
  {
    AppendAssociative(WriteAttribute(pairs[0].0, pairs[0].1), WriteAttributes(pairs[1..]), end);
  }

  lemma {:induction false} ReadWrittenAttributes(pairs: Pairs, selfClosing: bool, k: string)
    requires AreReadable(pairs)
    ensures ReadAttributes(WriteAttributes(pairs) + (TagEnd(selfClosing) + k)) == Ok(Tag(pairs, selfClosing, k))
  {
    var end := TagEnd(selfClosing) + k;
    if pairs == [] {
      assert WriteAttributes(pairs) + end == end;
      ReadTagEnd(selfClosing, k);
    } else {
      var (name, value) := pairs[0];
      var tail := WriteAttributes(pairs[1..]) + end;
      ReadWrittenAttributes(pairs[1..], selfClosing, k);
      ReadWrittenAttribute(name, value, tail);
      WriteAttributesCons(pairs, end);
      HeadAndTail(pairs);
    }
  }

  // ---- Declarations

  predicate DistinctKeys(pairs: Pairs) {
    forall i, j :: 0 <= i < j < |pairs| ==> pairs[i].0 != pairs[j].0
  }

  /** `declared` binds the first `n` invented prefixes to their namespaces, and neither "" nor `xml`. */
  predicate Binds(declared: Declared, prefixes: Prefixes, n: nat) {
    && n < |prefixes|
    && (forall i :: 1 <= i <= n ==> prefixes[i].1 in declared && declared[prefixes[i].1] == prefixes[i].0)
    && "" !in declared && "xml" !in declared
  }

  lemma {:induction false} DeclarationPairsAre(prefixes: Prefixes)
    requires forall i :: 0 <= i < |prefixes| ==> prefixes[i].0 != XML_NS
    ensures |DeclarationPairs(prefixes)| == |prefixes|
    ensures forall i :: 0 <= i < |prefixes| ==>
      DeclarationPairs(prefixes)[i] == ("xmlns:" + prefixes[i].1, prefixes[i].0)
  {
    if prefixes != [] {
      DeclarationPairsAre(prefixes[1..]);
    }
  }

  lemma {:induction false} SplitPrefixed(prefix: string, name: string)
    requires IsNcName(prefix) && IsNcName(name)
    ensures SplitQName(prefix + ":" + name) == Ok((prefix, name))
  {
    NcNameIsReadable(prefix);
    var qname := prefix + (":" + name);
    assert prefix + ":" + name == qname;
    IndexOfAppend(prefix, ":" + name, ':');
    assert qname[..|prefix|] == prefix && qname[|prefix| + 1..] == name;
  }

  lemma {:induction false} SplitBare(name: string)
    requires IsNcName(name)
    ensures SplitQName(name) == Ok(("", name))
  {
    NcNameIsReadable(name);
  }

  lemma {:induction false} BindsOneMore(declared: Declared, prefixes: Prefixes, n: nat)
    requires IsPrefixMap(prefixes) && n + 1 < |prefixes| && Binds(declared, prefixes, n)
    ensures Binds(declared[prefixes[n + 1].1 := prefixes[n + 1].0], prefixes, n + 1)
  {
    forall i | 1 <= i <= n
      ensures prefixes[i].1 != prefixes[n + 1].1
    {
      PrefixesDiffer(prefixes, i, n + 1);
    }
    PrefixAtIsName(n + 1, prefixes[n + 1].0);
    PrefixesDiffer(prefixes, 0, n + 1);
  }

  /** The last declaration of a list adds its binding. */
  lemma {:induction false} LastDeclaration(pairs: Pairs, prefixes: Prefixes, n: nat)
    requires IsPrefixMap(prefixes) && n + 1 < |prefixes|
    requires |pairs| == n + 1 && DistinctKeys(pairs)
    requires pairs[n] == ("xmlns:" + prefixes[n + 1].1, prefixes[n + 1].0)
    requires Declarations(pairs[..n]).Ok?
    ensures Declarations(pairs) == Ok(Declarations(pairs[..n]).value[prefixes[n + 1].1 := prefixes[n + 1].0])
  {
    var prefix := prefixes[n + 1].1;
    PrefixAtIsName(n + 1, prefixes[n + 1].0);
    PrefixesDiffer(prefixes, 0, n + 1);
    assert "xmlns" + ":" + prefix == "xmlns:" + prefix;
    assert IsNcName("xmlns");
    SplitPrefixed("xmlns", prefix);
    assert prefixes[n + 1].0 != prefixes[0].0;
    assert !IsForbiddenDeclaration(prefix, prefixes[n + 1].0);
  }

  lemma {:induction false} DeclaredAre(pairs: Pairs, prefixes: Prefixes, n: nat)
    requires IsPrefixMap(prefixes) && n < |prefixes|
    requires |pairs| == n && DistinctKeys(pairs)
    requires forall i :: 0 <= i < n ==> pairs[i] == ("xmlns:" + prefixes[i + 1].1, prefixes[i + 1].0)
    ensures Declarations(pairs).Ok? && Binds(Declarations(pairs).value, prefixes, n)
  {
    if n > 0 {
      DeclaredAre(pairs[..n - 1], prefixes, n - 1);
      LastDeclaration(pairs, prefixes, n - 1);
      BindsOneMore(Declarations(pairs[..n - 1]).value, prefixes, n - 1);
    }
  }

  /** Attributes that declare nothing leave the declarations as they are. */
  lemma {:induction false} AttributesDeclareNothing(declarations: Pairs, attributes: Pairs)
    requires DistinctKeys(declarations + attributes)
    requires forall a :: a in attributes ==> !IsDeclaration(a.0)
    ensures Declarations(declarations + attributes) == Declarations(declarations)
    decreases |attributes|
  {
    var all := declarations + attributes;
    if attributes == [] {
      assert all == declarations;
    } else {
      var n := |attributes| - 1;
      assert all[..|all| - 1] == declarations + attributes[..n];
      assert DistinctKeys(declarations + attributes[..n]) by {
        assert forall i :: 0 <= i < |all| - 1 ==> (declarations + attributes[..n])[i] == all[i];
      }
      AttributesDeclareNothing(declarations, attributes[..n]);
      assert all[|all| - 1] == attributes[n] && attributes[n] in attributes;
    }
  }

  // ---- Attributes

  /** Every prefix of the map resolves to its namespace, and no prefix to none. */
  predicate Resolves(stack: seq<Open>, own: Declared, prefixes: Prefixes) {
    && (forall i :: 0 <= i < |prefixes| ==> LookupPrefix(stack, own, prefixes[i].1) == Some(prefixes[i].0))
    && LookupPrefix(stack, own, "") == Some("")
  }

  /** `qname` is a readable tag or attribute name that stands for `name` in `namespace`. */
  predicate StandsFor(qname: string, stack: seq<Open>, own: Declared, namespace: string, name: string) {
    && IsReadableName(qname) && (forall c :: c in qname ==> InClass(c, TagName))
    && SplitQName(qname).Ok?
    && var (prefix, local) := SplitQName(qname).value;
    && local == name && (prefix == "" <==> namespace == "")
    && ResolvePrefix(stack, own, prefix) == Ok(namespace)
  }

  lemma {:induction false} PrefixedStandsFor(
    prefix: string, stack: seq<Open>, own: Declared, namespace: string, name: string)
    requires IsNcName(prefix) && IsNcName(name) && namespace != ""
    requires LookupPrefix(stack, own, prefix) == Some(namespace)
    ensures StandsFor(prefix + ":" + name, stack, own, namespace, name)
  {
    NcNameIsReadable(prefix);
    NcNameIsReadable(name);
    SplitPrefixed(prefix, name);
  }

  lemma {:induction false} PrefixIsBound(prefixes: Prefixes, namespace: string) returns (i: nat)
    requires IsPrefixMap(prefixes) && HasNamespace(prefixes, namespace)
    ensures i < |prefixes| && prefixes[i] == (namespace, PrefixOf(prefixes, namespace))
    ensures IsNcName(prefixes[i].1) && prefixes[i].1 != "xmlns"
  {
    var p :| p in prefixes && p.0 == namespace;
    i :| 0 <= i < |prefixes| && prefixes[i] == p;
    PrefixOfEntry(prefixes, i);
    PrefixAtIsName(i, namespace);
  }

  /** A qualified name splits into its name and a prefix that resolves to its namespace. */
  lemma {:induction false} QualifiedResolves(
    prefixes: Prefixes, stack: seq<Open>, own: Declared, namespace: string, name: string)
    requires IsPrefixMap(prefixes) && Resolves(stack, own, prefixes)
    requires IsNcName(name) && IsPrefixed(prefixes, namespace)
    ensures StandsFor(Qualify(prefixes, namespace, name), stack, own, namespace, name)
    ensures namespace != "" ==> !IsDeclaration(Qualify(prefixes, namespace, name))
  {
    if namespace == "" {
      NcNameIsReadable(name);
      SplitBare(name);
    } else {
      var i := PrefixIsBound(prefixes, namespace);
      PrefixedStandsFor(prefixes[i].1, stack, own, namespace, name);
      NcNameIsReadable(prefixes[i].1);
      PrefixIsNoDeclaration(prefixes[i].1, name);
      AppendAssociative(prefixes[i].1, ":", name);
    }
  }

  lemma {:induction false} DeclarationColon(qname: string)
    requires "xmlns:" <= qname
    ensures IndexOf(qname, ':') == 5 && qname[..5] == "xmlns"
  {
    assert qname == "xmlns" + qname[5..] && qname[5..][0] == ':';
    IndexOfAppend("xmlns", qname[5..], ':');
  }

  lemma {:induction false} PrefixIsNoDeclaration(prefix: string, name: string)
    requires ':' !in prefix && prefix != "xmlns"
    ensures !IsDeclaration(prefix + (":" + name))
  {
    var qname := prefix + (":" + name);
    IndexOfAppend(prefix, ":" + name, ':');
    assert qname[|prefix|] == ':' && qname[..|prefix|] == prefix;
    if IsDeclaration(qname) && qname != "xmlns" {
      DeclarationColon(qname);
    }
  }
}
