/**
 * The loops of `caldav/xml.ts`, each equal to the function it computes. Where the source moves a
 * position forward, these methods keep the text from that position on.
 */
module XmlPass {
  import opened Wrappers
  import opened JsText
  import opened Scan
  import opened XmlTree
  import opened XmlReader
  import opened XmlEscaping

  /** What is left to decode after the text up to the next `&` has been copied. */
  lemma {:induction false} DecodeNext(raw: string, from: nat, at: int)
    requires from <= |raw| && at == IndexFrom(raw, '&', from)
    ensures DecodeEntities(raw[from..]) ==
            if at == -1 then Ok(raw[from..]) else Prepend(raw[from..at], DecodeReference(raw[at + 1..]))
  {
    if at != -1 {
      assert raw[from..][at - from + 1..] == raw[at + 1..];
      assert raw[from..][..at - from] == raw[from..at];
    }
  }

  lemma {:induction false} DecodeNamedAt(raw: string, at: nat, end: nat)
    requires at < end < |raw| && IndexOf(raw[at + 1..], ';') == end - at - 1
    ensures DecodeReference(raw[at + 1..]) ==
            match DecodeEntity(raw[at + 1..end])
            case Ok(decoded) => Prepend(decoded, DecodeEntities(raw[end + 1..]))
            case Err(error) => Err(error)
  {
    assert raw[at + 1..][..end - at - 1] == raw[at + 1..end];
    assert raw[at + 1..][end - at..] == raw[end + 1..];
  }

  /** Decodes the entity that follows the `&` at `at`, and says where it ends. */
  method DecodeOne(raw: string, at: nat) returns (r: XmlResult<(string, nat)>)
    requires at < |raw|
    ensures r.Ok? ==> at < r.value.1 <= |raw|
    ensures r.Ok? ==> DecodeReference(raw[at + 1..]) == Prepend(r.value.0, DecodeEntities(raw[r.value.1..]))
    ensures r.Err? ==> DecodeReference(raw[at + 1..]) == Err(r.error)
  {
    var end := IndexFrom(raw, ';', at + 1);
    if end == -1 {
      return Err(Malformed);
    }
    DecodeNamedAt(raw, at, end);
    var decoded := DecodeEntity(raw[at + 1..end]);
    if decoded.Err? {
      return Err(decoded.error);
    }
    r := Ok((decoded.value, end + 1));
  }

  /** One turn of the loop: the text up to the `&` is copied, then what the entity stands for. */
  lemma {:induction false} DecodeTurn(raw: string, from: nat, at: int, out: string, decoded: string, next: nat)
    requires from <= |raw| && at == IndexFrom(raw, '&', from) && at != -1 && next <= |raw|
    requires DecodeReference(raw[at + 1..]) == Prepend(decoded, DecodeEntities(raw[next..]))
    ensures Prepend(out, DecodeEntities(raw[from..])) ==
            Prepend(out + raw[from..at] + decoded, DecodeEntities(raw[next..]))
  {
    DecodeNext(raw, from, at);
    PrependTwice(out, raw[from..at], DecodeReference(raw[at + 1..]));
    PrependTwice(out + raw[from..at], decoded, DecodeEntities(raw[next..]));
  }

  lemma {:induction false} DecodeEnd(raw: string, from: nat, out: string)
    requires from <= |raw| && IndexFrom(raw, '&', from) == -1
    ensures Prepend(out, DecodeEntities(raw[from..])) == Ok(out + raw[from..])
  {
    DecodeNext(raw, from, -1);
  }

  lemma DecodeStart(raw: string)
    ensures Prepend("", DecodeEntities(raw[0..])) == DecodeEntities(raw)
  {
    assert raw[0..] == raw;
    var r := DecodeEntities(raw);
    assert r.Ok? ==> "" + r.value == r.value;
  }

  method Decode(raw: string) returns (r: XmlResult<string>)
    ensures r == DecodeEntities(raw)
  {
    ghost var answer := DecodeEntities(raw);
    DecodeStart(raw);
    var at := IndexFrom(raw, '&', 0);
    var out, from := "", 0;
    while at != -1
      invariant 0 <= from <= |raw| && at == IndexFrom(raw, '&', from)
      invariant answer == Prepend(out, DecodeEntities(raw[from..]))
      decreases |raw| - from
    {
      var decoded := DecodeOne(raw, at);
      if decoded.Err? {
        DecodeNext(raw, from, at);
        return Err(decoded.error);
      }
      DecodeTurn(raw, from, at, out, decoded.value.0, decoded.value.1);
      out, from := out + raw[from..at] + decoded.value.0, decoded.value.1;
      at := IndexFrom(raw, '&', from);
    }
    DecodeEnd(raw, from, out);
    r := Ok(out + raw[from..]);
  }

  /** `while (at < text.length && ...) at++` for one class of characters: how far it goes. */
  method SkipWhile(s: string, class_: CharClass) returns (n: nat)
    ensures n == Span(s, class_)
  {
    n := 0;
    assert s[0..] == s;
    while n < |s| && InClass(s[n], class_)
      invariant n <= |s|
      invariant Span(s, class_) == n + Span(s[n..], class_)
    {
      assert s[n..][1..] == s[n + 1..];
      n := n + 1;
    }
  }

  /** The declarations of a start tag: one pass over the raw attributes, names seen so far in a set. */
  method DeclareAll(attributes: seq<RawAttribute>) returns (r: XmlResult<Declared>)
    ensures r == Declarations(attributes)
  {
    var declared: Declared := map[];
    var seen: set<string> := {};
    for i := 0 to |attributes|
      invariant Declarations(attributes[..i]) == Ok(declared)
      invariant seen == NamesOf(attributes[..i])
    {
      ghost var upTo := attributes[..i + 1];
      assert upTo[..i] == attributes[..i] && upTo[i] == attributes[i];
      var next := if attributes[i].0 in seen then Err(Malformed)
                  else Declare(declared, attributes[i].0, attributes[i].1);
      assert next == Declarations(upTo);
      if next.Err? {
        LaterDeclarations(attributes, i + 1);
        return next;
      }
      seen := seen + {attributes[i].0};
      declared := next.value;
    }
    assert attributes[..|attributes|] == attributes;
    r := Ok(declared);
  }

  /** The first error of the pass is the answer, whatever follows. */
  lemma {:induction false} LaterDeclarations(attributes: seq<RawAttribute>, n: nat)
    requires n <= |attributes| && Declarations(attributes[..n]).Err?
    ensures Declarations(attributes) == Declarations(attributes[..n])
    decreases |attributes|
  {
    var last := |attributes| - 1;
    if n <= last {
      assert attributes[..last][..n] == attributes[..n];
      LaterDeclarations(attributes[..last], n);
    } else {
      assert attributes[..n] == attributes;
    }
  }

  lemma {:induction false} LaterAttributes(
    stack: seq<Open>, own: Declared, attributes: seq<RawAttribute>, n: nat)
    requires n <= |attributes| && ResolveAttributes(stack, own, attributes[..n]).Err?
    ensures ResolveAttributes(stack, own, attributes) == ResolveAttributes(stack, own, attributes[..n])
    decreases |attributes|
  {
    var last := |attributes| - 1;
    if n <= last {
      assert attributes[..last][..n] == attributes[..n];
      LaterAttributes(stack, own, attributes[..last], n);
    } else {
      assert attributes[..n] == attributes;
    }
  }

  /** The prefix walk: from the inmost open element outwards. */
  method Lookup(stack: seq<Open>, own: Declared, prefix: string) returns (r: Option<string>)
    ensures r == LookupPrefix(stack, own, prefix)
  {
    if prefix in own {
      return Some(own[prefix]);
    }
    var i := |stack|;
    assert stack[..i] == stack;
    while i > 0
      invariant 0 <= i <= |stack|
      invariant LookupOpen(stack, prefix) == LookupOpen(stack[..i], prefix)
    {
      i := i - 1;
      assert stack[..i + 1][..i] == stack[..i];
      if prefix in stack[i].declared {
        return Some(stack[i].declared[prefix]);
      }
    }
    r := if prefix == "xml" then Some(XML_NS) else if prefix == "" then Some("") else None;
  }

  method ResolveOne(stack: seq<Open>, own: Declared, name: string, value: string) returns (r: XmlResult<Attribute>)
    ensures r == ResolveAttribute(stack, own, name, value)
  {
    var split := SplitQName(name);
    if split.Err? {
      return Err(split.error);
    }
    if split.value.0 == "" {
      return Ok(Attribute("", split.value.1, value));
    }
    var namespace := Lookup(stack, own, split.value.0);
    r := if namespace.Some? then Ok(Attribute(namespace.value, split.value.1, value)) else Err(Malformed);
  }

  /** The remaining attributes, resolved; the expanded names so far are kept in a set. */
  method ResolveAll(stack: seq<Open>, own: Declared, attributes: seq<RawAttribute>)
    returns (r: XmlResult<seq<Attribute>>)
    ensures r == ResolveAttributes(stack, own, attributes)
  {
    var resolved: seq<Attribute> := [];
    var names: set<(string, string)> := {};
    for i := 0 to |attributes|
      invariant ResolveAttributes(stack, own, attributes[..i]) == Ok(resolved)
      invariant names == ExpandedNames(resolved)
    {
      ghost var upTo := attributes[..i + 1];
      assert upTo[..i] == attributes[..i] && upTo[i] == attributes[i];
      if !IsDeclaration(attributes[i].0) {
        var attribute := ResolveOne(stack, own, attributes[i].0, attributes[i].1);
        if attribute.Err? || (attribute.value.namespace, attribute.value.name) in names {
          assert ResolveAttributes(stack, own, upTo) == if attribute.Err? then Err(attribute.error) else Err(Malformed);
          LaterAttributes(stack, own, attributes, i + 1);
          return if attribute.Err? then Err(attribute.error) else Err(Malformed);
        }
        names := names + {(attribute.value.namespace, attribute.value.name)};
        resolved := resolved + [attribute.value];
      }
    }
    assert attributes[..|attributes|] == attributes;
    r := Ok(resolved);
  }

  // ---- Start tags

  lemma WithAttributesTwice(a: seq<RawAttribute>, b: seq<RawAttribute>, rest: XmlResult<Tag>)
    ensures WithAttributes(a, WithAttributes(b, rest)) == WithAttributes(a + b, rest)
  {
    if rest.Ok? {
      assert a + (b + rest.value.attributes) == a + b + rest.value.attributes;
    }
  }

  /** One turn of the attribute loop, from the text after the white space. */
  lemma {:induction false} TagGoesOn(s: string, s1: string, before: seq<RawAttribute>)
    requires s1 == SkipSpace(s) && s1 != "" && s1[0] != '>' && !("/>" <= s1)
    ensures WithAttributes(before, ReadAttributes(s)) ==
            match ReadAttribute(s1)
            case Ok((attribute, rest)) => WithAttributes(before + [attribute], ReadAttributes(rest))
            case Err(error) => Err(error)
  {
    var attribute := ReadAttribute(s1);
    if attribute.Ok? {
      WithAttributesTwice(before, [attribute.value.0], ReadAttributes(attribute.value.1));
    }
  }

  lemma {:induction false} TagStops(s: string, s1: string, before: seq<RawAttribute>)
    requires s1 == SkipSpace(s)
    ensures s1 == "" ==> WithAttributes(before, ReadAttributes(s)) == Err(Malformed)
    ensures s1 != "" && s1[0] == '>' ==>
      WithAttributes(before, ReadAttributes(s)) == Ok(Tag(before, false, s1[1..]))
    ensures "/>" <= s1 ==> WithAttributes(before, ReadAttributes(s)) == Ok(Tag(before, true, s1[2..]))
  {
    assert before + [] == before;
    assert "/>" <= s1 ==> s1[0] == '/';
  }

  /** The attribute loop of `readStartTag`, `rest` being what is still to be read. */
  method ReadTag(s: string) returns (r: XmlResult<Tag>)
    ensures r == ReadAttributes(s)
  {
    var attributes: seq<RawAttribute> := [];
    var rest := s;
    ghost var answer := ReadAttributes(s);
    assert answer.Ok? ==> [] + answer.value.attributes == answer.value.attributes;
    while true
      invariant answer == WithAttributes(attributes, ReadAttributes(rest))
      decreases |rest|
    {
      var space := SkipWhile(rest, Space);
      var s1 := rest[space..];
      TagStops(rest, s1, attributes);
      if s1 == "" {
        return Err(Malformed);
      }
      if s1[0] == '>' {
        return Ok(Tag(attributes, false, s1[1..]));
      }
      if "/>" <= s1 {
        return Ok(Tag(attributes, true, s1[2..]));
      }
      TagGoesOn(rest, s1, attributes);
      var attribute := ReadAttribute(s1);
      if attribute.Err? {
        return Err(attribute.error);
      }
      attributes, rest := attributes + [attribute.value.0], attribute.value.1;
    }
  }

  // ---- The pass

  /** `readStartTag` once its attributes are read: limits, declarations, the name, the attributes. */
  method Open(state: State, qname: string, tag: Tag, maxDepth: nat) returns (r: XmlResult<State>)
    ensures r == OpenElement(state, qname, tag, maxDepth)
  {
    if state.stack == [] && state.root.Some? {
      return Err(Malformed);
    }
    if |state.stack| >= maxDepth {
      return Err(TooLarge);
    }
    var declared := DeclareAll(tag.attributes);
    if declared.Err? {
      return Err(declared.error);
    }
    var split := SplitQName(qname);
    if split.Err? {
      return Err(split.error);
    }
    var namespace := Lookup(state.stack, declared.value, split.value.0);
    if namespace.None? {
      return Err(Malformed);
    }
    var attributes := ResolveAll(state.stack, declared.value, tag.attributes);
    if attributes.Err? {
      return Err(attributes.error);
    }
    var element := Elem(namespace.value, split.value.1, attributes.value, []);
    if tag.selfClosing {
      r := Ok(Attach(state, element));
    } else {
      r := Ok(state.(stack := state.stack + [XmlReader.Open(qname, element, declared.value)]));
    }
  }

  /** `readStartTag`, from after the `<`. */
  method ReadStartTag(s: string, state: State, maxDepth: nat) returns (r: XmlResult<(string, State)>)
    ensures r == StartTag(s, state, maxDepth)
  {
    var n := SkipWhile(s, TagName);
    if n == 0 {
      return Err(Malformed);
    }
    var tag := ReadTag(s[n..]);
    if tag.Err? {
      return Err(tag.error);
    }
    var next := Open(state, s[..n], tag.value, maxDepth);
    r := if next.Ok? then Ok((tag.value.rest, next.value)) else Err(next.error);
  }

  method ReadMarkup(s: string, state: State, maxDepth: nat) returns (r: XmlResult<(string, State)>)
    requires s != "" && s[0] == '<'
    ensures r == Markup(s, state, maxDepth)
  {
    if "<?" <= s || "<!" <= s || "</" <= s {
      r := Markup(s, state, maxDepth);
    } else {
      NotCommentOrCData(s);
      r := ReadStartTag(s[1..], state, maxDepth);
    }
  }

  lemma NotCommentOrCData(s: string)
    requires !("<!" <= s)
    ensures !("<!--" <= s) && !("<![CDATA[" <= s)
  {
    assert "<!--"[..2] == "<!" && "<![CDATA["[..2] == "<!";
  }

  method ReadTurn(s: string, lt: nat, state: State, maxDepth: nat) returns (r: XmlResult<(string, State)>)
    requires lt < |s| && s[lt] == '<'
    ensures r == Turn(s, lt, state, maxDepth)
  {
    var withText := state;
    if lt > 0 {
      var decoded := Decode(s[..lt]);
      if decoded.Err? {
        return Err(decoded.error);
      }
      var next := AddText(state, decoded.value);
      if next.Err? {
        return Err(next.error);
      }
      withText := next.value;
    }
    r := ReadMarkup(s[lt..], withText, maxDepth);
  }

  /** `tokenize`: one forward pass, `rest` strictly shorter after every turn. */
  method Tokenize(text: string, maxBytes: nat, maxDepth: nat) returns (r: XmlResult<Element>)
    ensures r == Parse(text, maxBytes, maxDepth)
  {
    if Utf8Length(text) > maxBytes {
      return Err(TooLarge);
    }
    var stack: seq<XmlReader.Open> := [];
    var root: Option<Element> := None;
    var rest := if text != "" && text[0] as int == 0xFEFF then text[1..] else text;
    ghost var answer := Parse(text, maxBytes, maxDepth);
    while rest != ""
      invariant answer == Run(rest, State(stack, root), maxDepth)
      decreases |rest|
    {
      var lt := IndexOf(rest, '<');
      if lt == -1 {
        var last := TextBetween(rest, State(stack, root));
        return if last.Ok? then Finish(last.value) else Err(last.error);
      }
      var next := ReadTurn(rest, lt, State(stack, root), maxDepth);
      if next.Err? {
        return Err(next.error);
      }
      rest, stack, root := next.value.0, next.value.1.stack, next.value.1.root;
    }
    r := Finish(State(stack, root));
  }
}
