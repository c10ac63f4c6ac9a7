/** Decoding undoes both escapers, and escaped text cannot end what it is written into. */
module XmlEscaping {
  import opened Wrappers
  import opened Scan
  import opened XmlTree
  import opened XmlReader
  import opened XmlWriter

  lemma {:induction false} IndexOfCons(c: char, rest: string, x: char)
    requires c != x
    ensures IndexOf([c] + rest, x) == if x in rest then IndexOf(rest, x) + 1 else -1
  {
    assert ([c] + rest)[1..] == rest;
    IndexOfIsFirst(rest, x);
  }

  lemma {:induction false} DecodeBefore(c: char, rest: string, at: int)
    requires c != '&' && at == IndexOf(rest, '&') && at != -1
    ensures DecodeEntities([c] + rest) == Prepend([c] + rest[..at], DecodeReference(rest[at + 1..]))
  {
    hide DecodeReference;
    var raw := [c] + rest;
    IndexOfCons(c, rest, '&');
    IndexOfIsFirst(rest, '&');
    assert raw[at + 2..] == rest[at + 1..];
    assert raw[..at + 1] == [c] + rest[..at];
  }

  lemma PrependTwice(a: string, b: string, rest: XmlResult<string>)
    ensures Prepend(a, Prepend(b, rest)) == Prepend(a + b, rest)
  {
    if rest.Ok? {
      assert a + (b + rest.value) == a + b + rest.value;
    }
  }

  lemma {:induction false} DecodePlain(c: char, rest: string)
    requires c != '&'
    ensures DecodeEntities([c] + rest) == Prepend([c], DecodeEntities(rest))
  {
    hide DecodeReference;
    var at := IndexOf(rest, '&');
    if at == -1 {
      IndexOfIsFirst(rest, '&');
      IndexOfCons(c, rest, '&');
    } else {
      DecodeBefore(c, rest, at);
      PrependTwice([c], rest[..at], DecodeReference(rest[at + 1..]));
    }
  }

  lemma {:induction false} DecodeNamed(entity: string, decoded: string, rest: string)
    requires ';' !in entity && DecodeEntity(entity) == Ok(decoded)
    ensures DecodeEntities("&" + entity + ";" + rest) == Prepend(decoded, DecodeEntities(rest))
  {
    var raw := "&" + entity + ";" + rest;
    var after := entity + (";" + rest);
    assert raw[1..] == after;
    IndexOfAppend(entity, ";" + rest, ';');
    assert after[..|entity|] == entity;
    assert after[|entity| + 1..] == rest;
    var tail := DecodeReference(after);
    assert tail.Ok? ==> raw[..0] + tail.value == tail.value;
  }

  lemma {:induction false} DecimalReference(digits: string)
    requires digits != "" && digits[0] != 'x'
    ensures DecodeEntity("#" + digits) == DecodeNumber(digits, false)
  {
    hide DecodeNumber, DigitsValue;
    assert ("#" + digits)[1..] == digits;
  }

  lemma {:induction false} ControlDigits()
    ensures DigitsValue("9", 10) == Some(9) && DigitsValue("10", 10) == Some(10) && DigitsValue("13", 10) == Some(13)
  {
    assert "9"[..0] == "" && "1"[..0] == "" && "10"[..1] == "1" && "13"[..1] == "1";
    assert DigitsValue("1", 10) == Some(1);
  }

  lemma {:induction false} ControlsDecode()
    ensures DecodeEntity("#9") == Ok("\t") && DecodeEntity("#10") == Ok("\n") && DecodeEntity("#13") == Ok("\r")
  {
    hide DigitsValue;
    ControlDigits();
    DecimalReference("9");
    DecimalReference("10");
    DecimalReference("13");
    assert "#" + "9" == "#9" && "#" + "10" == "#10" && "#" + "13" == "#13";
  }

  lemma {:induction false} EntityForDecodes(c: char, inAttribute: bool)
    requires EntityFor(c, inAttribute) != ""
    ensures DecodeEntity(EntityFor(c, inAttribute)) == Ok([c])
    ensures ';' !in EntityFor(c, inAttribute)
  {
    hide DecodeNumber;
    if c == '\r' || c == '\n' || c == '\t' {
      ControlsDecode();
    }
  }

  lemma DecodeCharacter(c: char, inAttribute: bool, rest: string)
    ensures DecodeEntities(EscapeChar(c, inAttribute) + rest) == Prepend([c], DecodeEntities(rest))
  {
    if EntityFor(c, inAttribute) == "" {
      DecodePlain(c, rest);
    } else {
      EntityForDecodes(c, inAttribute);
      DecodeNamed(EntityFor(c, inAttribute), [c], rest);
    }
  }

  /** Entity decoding undoes `escapeXml` and `escapeAttribute`, whatever the text. */
  lemma {:induction false} DecodeUndoesEscape(s: string, inAttribute: bool)
    ensures DecodeEntities(Escape(s, inAttribute)) == Ok(s)
  {
    if s != "" {
      DecodeUndoesEscape(s[1..], inAttribute);
      DecodeCharacter(s[0], inAttribute, Escape(s[1..], inAttribute));
      assert s == [s[0]] + s[1..];
    }
  }

  /** A character that escaping leaves: none that ends a value or opens markup, or that another reader changes. */
  predicate IsInertIn(c: char, inAttribute: bool) {
    c !in {'<', '>', '"', '\'', '\r'} && (inAttribute ==> c != '\n' && c != '\t')
  }

  lemma EscapedCharIsInert(c: char, inAttribute: bool)
    ensures forall d :: d in EscapeChar(c, inAttribute) ==> IsInertIn(d, inAttribute)
    ensures EscapeChar(c, inAttribute) != ""
  {
    var entity := EntityFor(c, inAttribute);
    EntityIsInert(c, inAttribute);
    hide EntityFor;
    if entity != "" {
      assert forall d :: d in EscapeChar(c, inAttribute) ==> d in entity || d == '&' || d == ';';
    }
  }

  lemma EntityIsInert(c: char, inAttribute: bool)
    ensures forall d :: d in EntityFor(c, inAttribute) ==> IsInertIn(d, inAttribute)
    ensures EntityFor(c, inAttribute) == "" ==> IsInertIn(c, inAttribute)
  {
  }

  /**
   * Escaped text holds no character that could end an attribute or open markup, nor a line break or tab
   * that the normalization of another reader would change (sections 2.11 and 3.3.3 of XML 1.0).
   */
  lemma {:induction false} EscapedIsInert(s: string, inAttribute: bool)
    ensures forall c :: c in Escape(s, inAttribute) ==> IsInertIn(c, inAttribute)
    ensures '<' !in Escape(s, inAttribute) && '"' !in Escape(s, inAttribute)
    ensures s != "" ==> Escape(s, inAttribute) != ""
  {
    if s != "" {
      EscapedIsInert(s[1..], inAttribute);
      EscapedCharIsInert(s[0], inAttribute);
    }
  }
}
