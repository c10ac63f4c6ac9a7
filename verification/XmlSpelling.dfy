/**
 * The ways a writer may spell text, names and start tags in XML, and that the reader of `caldav/xml.ts`
 * reads them as what they spell (sections 2.4, 3.1 and 4.1 of XML 1.0).
 */
module XmlSpelling {
  import opened Wrappers
  import opened Scan
  import opened XmlTree
  import opened XmlReader
  import opened XmlEscaping
  import opened XmlStartTag
  import opened XmlOpenElement
  import opened XmlAccepted

  // ---- Characters and references

  /** One character as it is spelled: as itself, by one of the five entities, or by its number. */
  datatype Bit = Char(c: char) | Entity(name: string) | Decimal(zeros: nat, code: nat) | Hex(zeros: nat, code: nat, capital: bool)

  function DigitOf(d: nat, capital: bool): char
    requires d < 16
  {
    if d < 10 then (d + '0' as int) as char else (d - 10 + (if capital then 'A' else 'a') as int) as char
  }

  function DigitsOf(n: nat, base: nat, capital: bool): string
    requires base == 10 || base == 16
  {
    (if n < base then "" else DigitsOf(n / base, base, capital)) + [DigitOf(n % base, capital)]
  }

  function Zeros(n: nat): string {
    if n == 0 then "" else Zeros(n - 1) + "0"
  }

  function NumberText(bit: Bit): string
    requires bit.Decimal? || bit.Hex?
  {
    if bit.Decimal? then Zeros(bit.zeros) + DigitsOf(bit.code, 10, false)
    else Zeros(bit.zeros) + DigitsOf(bit.code, 16, bit.capital)
  }

  function BitText(bit: Bit): string {
    match bit
    case Char(c) => [c]
    case Entity(name) => "&" + name + ";"
    case Decimal(_, _) => "&" + ("#" + NumberText(bit)) + ";"
    case Hex(_, _, _) => "&" + ("#x" + NumberText(bit)) + ";"
  }

  function BitMeaning(bit: Bit): char
    requires IsBit(bit)
  {
    match bit
    case Char(c) => c
    case Entity(name) =>
      if name == "lt" then '<' else if name == "gt" then '>' else if name == "amp" then '&'
      else if name == "quot" then '"' else '\''
    case Decimal(_, code) => code as char
    case Hex(_, code, _) => code as char
  }

  predicate IsBit(bit: Bit) {
    match bit
    case Char(c) => c != '<' && c != '&'
    case Entity(name) => name in {"lt", "gt", "amp", "quot", "apos"}
    case Decimal(_, code) => IsXmlCode(code) && |NumberText(bit)| <= 7
    case Hex(_, code, _) => IsXmlCode(code) && |NumberText(bit)| <= 6
  }

  predicate AreBits(bits: seq<Bit>) {
    forall i :: 0 <= i < |bits| ==> IsBit(bits[i])
  }

  function BitsText(bits: seq<Bit>): string {
    if bits == [] then "" else BitText(bits[0]) + BitsText(bits[1..])
  }

  function BitsMeaning(bits: seq<Bit>): string
    requires AreBits(bits)
  {
    if bits == [] then "" else [BitMeaning(bits[0])] + BitsMeaning(bits[1..])
  }

  lemma {:induction false} DigitIsRead(d: nat, capital: bool)
    requires d < 16
    ensures DigitValue(DigitOf(d, capital)) == d && DigitOf(d, capital) !in {';', '<', '"', '\'', '&', 'x'}
  {
  }

  lemma {:induction false} DigitsAppend(s: string, c: char, base: nat)
    requires base == 10 || base == 16
    ensures DigitsValue(s + [c], base) ==
      match DigitsValue(s, base)
      case Some(high) => if DigitValue(c) < base then Some(high * base + DigitValue(c)) else None
      case None => None
  {
    assert (s + [c])[..|s|] == s;
  }

  lemma {:induction false} QuotientAndRest(n: nat, base: nat)
    requires base == 10 || base == 16
    ensures n == (n / base) * base + n % base
  {
  }

  lemma {:induction false} DigitsAreRead(zeros: nat, n: nat, base: nat, capital: bool)
    requires base == 10 || base == 16
    ensures DigitsValue(Zeros(zeros) + DigitsOf(n, base, capital), base) == Some(n)
  {
    hide DigitsValue, DigitValue, DigitOf;
    var last := DigitOf(n % base, capital);
    DigitIsRead(n % base, capital);
    QuotientAndRest(n, base);
    if n < base {
      ZerosAreRead(zeros, base);
      DigitsAppend(Zeros(zeros), last, base);
      assert DigitsOf(n, base, capital) == [last];
    } else {
      DigitsAreRead(zeros, n / base, base, capital);
      var front := DigitsOf(n / base, base, capital);
      DigitsAppend(Zeros(zeros) + front, last, base);
      assert Zeros(zeros) + DigitsOf(n, base, capital) == (Zeros(zeros) + front) + [last];
    }
  }

  lemma {:induction false} ZerosAreRead(zeros: nat, base: nat)
    requires base == 10 || base == 16
    ensures DigitsValue(Zeros(zeros), base) == Some(0)
  {
    if zeros > 0 {
      ZerosAreRead(zeros - 1, base);
      DigitsAppend(Zeros(zeros - 1), '0', base);
    }
  }

  /** A character that ends nothing where it stands. */
  predicate IsInert(c: char) {
    c != ';' && c != '<' && c != '"' && c != '\''
  }

  lemma {:induction false} NumberIsInert(zeros: nat, n: nat, base: nat, capital: bool)
    requires base == 10 || base == 16
    ensures var text := Zeros(zeros) + DigitsOf(n, base, capital);
      text != "" && text[0] != 'x' && forall c :: c in text ==> IsInert(c)
  {
    hide DigitOf;
    var last := DigitOf(n % base, capital);
    DigitIsRead(n % base, capital);
    ZerosAreInert(zeros);
    var front := if n < base then "" else DigitsOf(n / base, base, capital);
    var text := Zeros(zeros) + DigitsOf(n, base, capital);
    assert text == (Zeros(zeros) + front) + [last];
    if n >= base {
      NumberIsInert(zeros, n / base, base, capital);
    } else {
      assert Zeros(zeros) + front == Zeros(zeros);
      assert zeros > 0 ==> text[0] in Zeros(zeros);
    }
  }

  lemma {:induction false} ZerosAreInert(zeros: nat)
    ensures forall c :: c in Zeros(zeros) ==> c == '0'
  {
    if zeros > 0 {
      ZerosAreInert(zeros - 1);
    }
  }

  lemma {:induction false} NumberDecodes(bit: Bit)
    requires IsBit(bit) && (bit.Decimal? || bit.Hex?)
    ensures var entity := (if bit.Hex? then "#x" else "#") + NumberText(bit);
      DecodeEntity(entity) == Ok([BitMeaning(bit)]) && ';' !in entity
  {
    hide DigitsValue, DigitsOf, Zeros;
    var text := NumberText(bit);
    if bit.Decimal? {
      DigitsAreRead(bit.zeros, bit.code, 10, false);
      NumberIsInert(bit.zeros, bit.code, 10, false);
      DecimalReference(text);
    } else {
      DigitsAreRead(bit.zeros, bit.code, 16, bit.capital);
      NumberIsInert(bit.zeros, bit.code, 16, bit.capital);
      assert ("#x" + text)[2..] == text && ("#x" + text)[1] == 'x' && ("#x" + text)[0] == '#';
    }
  }

  lemma {:induction false} EntityDecodes(name: string)
    requires IsBit(Entity(name))
    ensures DecodeEntity(name) == Ok([BitMeaning(Entity(name))]) && ';' !in name
  {
    hide DecodeNumber;
  }

  lemma {:induction false} BitDecodes(bit: Bit, rest: string)
    requires IsBit(bit)
    ensures DecodeEntities(BitText(bit) + rest) == Prepend([BitMeaning(bit)], DecodeEntities(rest))
  {
    hide DecodeEntities, DecodeEntity, NumberText, BitMeaning;
    match bit {
      case Char(c) =>
        DecodePlain(c, rest);
        CharMeans(c);
      case Entity(name) =>
        EntityDecodes(name);
        DecodeNamed(name, [BitMeaning(bit)], rest);
      case Decimal(_, _) =>
        NumberDecodes(bit);
        DecodeNamed("#" + NumberText(bit), [BitMeaning(bit)], rest);
      case Hex(_, _, _) =>
        NumberDecodes(bit);
        DecodeNamed("#x" + NumberText(bit), [BitMeaning(bit)], rest);
    }
  }

  lemma {:induction false} CharMeans(c: char)
    requires IsBit(Char(c))
    ensures BitMeaning(Char(c)) == c
  {
  }

  /** Every spelling of a text is decoded as that text. */
  lemma {:induction false} BitsDecode(bits: seq<Bit>)
    requires AreBits(bits)
    ensures DecodeEntities(BitsText(bits)) == Ok(BitsMeaning(bits))
  {
    hide BitText, BitMeaning, IsBit;
    if bits != [] {
      BitsDecode(bits[1..]);
      BitDecodes(bits[0], BitsText(bits[1..]));
    }
  }

  lemma {:induction false} BitIsInert(bit: Bit, c: char)
    requires IsBit(bit) && c in BitText(bit)
    ensures c != '<' && (bit != Char(c) ==> c != '"' && c != '\'')
  {
    hide DigitsOf, Zeros;
    match bit {
      case Char(d) =>
      case Entity(name) =>
      case Decimal(zeros, code) => NumberIsInert(zeros, code, 10, false);
      case Hex(zeros, code, capital) => NumberIsInert(zeros, code, 16, capital);
    }
  }

  lemma {:induction false} BitsAreInert(bits: seq<Bit>, quote: char)
    requires AreBits(bits) && (quote == '"' || quote == '\'')
    ensures '<' !in BitsText(bits)
    ensures Char(quote) !in bits ==> quote !in BitsText(bits)
  {
    hide BitText, IsBit;
    if bits != [] {
      BitsAreInert(bits[1..], quote);
      forall c | c in BitText(bits[0])
        ensures c != '<' && (bits[0] != Char(c) ==> c != '"' && c != '\'')
      {
        BitIsInert(bits[0], c);
      }
      assert bits[0] in bits && forall bit :: bit in bits[1..] ==> bit in bits;
    }
  }

  // ---- Names

  /** A qualified name by its parts; no prefix is the empty one. */
  datatype Name = Name(prefix: string, local: string)

  function NameText(name: Name): string {
    if name.prefix == "" then name.local else name.prefix + ":" + name.local
  }

  predicate IsName(name: Name) {
    IsNcName(name.local) && (name.prefix != "" ==> IsNcName(name.prefix))
  }

  /** `xmlns` and `xmlns:p` declare; every other name is an attribute's. */
  predicate Declares(name: Name) {
    name.prefix == "xmlns" || (name.prefix == "" && name.local == "xmlns")
  }

  lemma {:induction false} NameIsRead(name: Name)
    requires IsName(name)
    ensures SplitQName(NameText(name)) == Ok((name.prefix, name.local))
    ensures IsReadableName(NameText(name)) && forall c :: c in NameText(name) ==> InClass(c, TagName)
    ensures NameText(name)[0] !in {'?', '!', '/'} && NameText(name)[|NameText(name)| - 1] == name.local[|name.local| - 1]
    ensures IsDeclaration(NameText(name)) <==> Declares(name)
  {
    hide IsDeclaration, SplitQName;
    NcNameIsReadable(name.local);
    if name.prefix == "" {
      SplitBare(name.local);
      BareDeclares(name.local);
    } else {
      SplitPrefixed(name.prefix, name.local);
      NcNameIsReadable(name.prefix);
      PrefixDeclares(name.prefix, name.local);
      AppendAssociative(name.prefix, ":", name.local);
    }
  }

  lemma {:induction false} BareDeclares(local: string)
    requires IsNcName(local)
    ensures IsDeclaration(local) <==> local == "xmlns"
  {
    if local != "xmlns" {
      BareNameIsNoDeclaration(local);
    }
  }

  lemma {:induction false} PrefixDeclares(prefix: string, local: string)
    requires IsNcName(prefix) && IsNcName(local)
    ensures IsDeclaration(prefix + (":" + local)) <==> prefix == "xmlns"
  {
    NcNameIsReadable(prefix);
    if prefix == "xmlns" {
      assert prefix + (":" + local) == "xmlns:" + local;
    } else {
      PrefixIsNoDeclaration(prefix, local);
    }
  }

  // ---- Attributes

  /** An attribute or a declaration as written: white space before it, around its "=", its quote and its value. */
  datatype Spelled = Spelled(lead: string, name: Name, before: string, after: string, quote: char, value: seq<Bit>)

  predicate AreSpaces(s: string) {
    forall c :: c in s ==> IsSpace(c)
  }

  predicate IsSpelled(a: Spelled) {
    && AreSpaces(a.lead) && a.lead != "" && AreSpaces(a.before) && AreSpaces(a.after) && IsName(a.name)
    && (a.quote == '"' || a.quote == '\'') && AreBits(a.value) && Char(a.quote) !in a.value
  }

  predicate AreSpelled(attributes: seq<Spelled>) {
    forall i :: 0 <= i < |attributes| ==> IsSpelled(attributes[i])
  }

  function ValueText(a: Spelled): string {
    [a.quote] + (BitsText(a.value) + [a.quote])
  }

  function AfterName(a: Spelled): string {
    a.before + ("=" + (a.after + ValueText(a)))
  }

  function SpelledText(a: Spelled): string {
    a.lead + (NameText(a.name) + AfterName(a))
  }

  function AllSpelled(attributes: seq<Spelled>): string {
    if attributes == [] then "" else SpelledText(attributes[0]) + AllSpelled(attributes[1..])
  }

  function PairOf(a: Spelled): RawAttribute
    requires IsSpelled(a)
  {
    (NameText(a.name), BitsMeaning(a.value))
  }

  function PairsOf(attributes: seq<Spelled>): (pairs: Pairs)
    requires AreSpelled(attributes)
    ensures |pairs| == |attributes| && forall i :: 0 <= i < |pairs| ==> pairs[i] == PairOf(attributes[i])
  {
    seq(|attributes|, i requires 0 <= i < |attributes| => PairOf(attributes[i]))
  }

  lemma {:induction false} SkipSpaces(spaces: string, rest: string)
    requires AreSpaces(spaces) && (rest == "" || !IsSpace(rest[0]))
    ensures SkipSpace(spaces + rest) == rest
  {
    SpanAppend(spaces, rest, Space);
    assert (spaces + rest)[|spaces|..] == rest;
  }

  lemma {:induction false} QuotedIsRead(quote: char, raw: string, value: string, tail: string)
    requires quote == '"' || quote == '\''
    requires quote !in raw && '<' !in raw && DecodeEntities(raw) == Ok(value)
    ensures ReadQuoted([quote] + (raw + ([quote] + tail))) == Ok((value, tail))
  {
    var after := raw + ([quote] + tail);
    assert ([quote] + after)[1..] == after;
    IndexOfAppend(raw, [quote] + tail, quote);
    assert after[..|raw|] == raw && after[|raw| + 1..] == tail;
  }

  lemma {:induction false} ValueIsRead(a: Spelled, tail: string)
    requires IsSpelled(a)
    ensures ReadQuoted(ValueText(a) + tail) == Ok((BitsMeaning(a.value), tail))
    ensures ValueText(a) != "" && !IsSpace(ValueText(a)[0])
  {
    hide ReadQuoted, BitsText, BitsMeaning;
    BitsDecode(a.value);
    BitsAreInert(a.value, a.quote);
    QuotedIsRead(a.quote, BitsText(a.value), BitsMeaning(a.value), tail);
    assert ValueText(a) + tail == [a.quote] + (BitsText(a.value) + ([a.quote] + tail));
  }

  lemma {:induction false} EqualsIsRead(a: Spelled, tail: string)
    requires IsSpelled(a)
    ensures ReadEquals(AfterName(a) + tail) == Ok(ValueText(a) + tail)
    ensures var text := AfterName(a) + tail; text != "" && !InClass(text[0], AttributeName)
  {
    hide ValueText, Span;
    ValueIsRead(a, tail);
    var rest := "=" + (a.after + (ValueText(a) + tail));
    var value := ValueText(a) + tail;
    assert AfterName(a) + tail == a.before + rest;
    SkipSpaces(a.before, rest);
    assert rest[1..] == a.after + value && value[0] == ValueText(a)[0];
    SkipSpaces(a.after, value);
    assert (a.before + rest)[0] == if a.before == "" then '=' else a.before[0];
    assert a.before != "" ==> a.before[0] in a.before;
  }

  lemma {:induction false} SpelledIsRead(a: Spelled, tail: string)
    requires IsSpelled(a)
    ensures ReadAttribute(NameText(a.name) + (AfterName(a) + tail)) == Ok((PairOf(a), tail))
  {
    hide ReadEquals, ReadQuoted, AfterName, ValueText, NameText, BitsMeaning;
    var name, rest := NameText(a.name), AfterName(a) + tail;
    NameIsRead(a.name);
    EqualsIsRead(a, tail);
    ValueIsRead(a, tail);
    SpanAppend(name, rest, AttributeName);
    assert (name + rest)[..|name|] == name && (name + rest)[|name|..] == rest;
  }

  lemma {:induction false} OneMoreAttribute(a: Spelled, tail: string)
    requires IsSpelled(a) && ReadAttributes(tail).Ok?
    ensures ReadAttributes(SpelledText(a) + tail) ==
      Ok(ReadAttributes(tail).value.(attributes := [PairOf(a)] + ReadAttributes(tail).value.attributes))
  {
    hide ReadAttribute, AfterName, Span, PairOf, NameText;
    var s1 := NameText(a.name) + (AfterName(a) + tail);
    NameIsRead(a.name);
    FirstOfName(a.name);
    assert s1[0] == NameText(a.name)[0];
    assert SpelledText(a) + tail == a.lead + s1;
    SkipSpaces(a.lead, s1);
    SpelledIsRead(a, tail);
  }

  lemma {:induction false} FirstOfName(name: Name)
    requires IsName(name)
    ensures var c := NameText(name)[0]; !IsSpace(c) && c != '>' && c != '/'
  {
    NameIsRead(name);
    assert NameText(name)[0] in NameText(name);
  }

  lemma {:induction false} EndOfTag(gap: string, selfClosing: bool, k: string)
    requires AreSpaces(gap)
    ensures ReadAttributes(gap + (TagEnd(selfClosing) + k)) == Ok(Tag([], selfClosing, k))
  {
    var end := TagEnd(selfClosing) + k;
    SkipSpaces(gap, end);
    assert end[|TagEnd(selfClosing)|..] == k;
  }

  /** A start tag's attributes are read in order, with what they spell. */
  lemma {:induction false} AttributesAreRead(attributes: seq<Spelled>, gap: string, selfClosing: bool, k: string)
    requires AreSpelled(attributes) && AreSpaces(gap)
    ensures ReadAttributes(AllSpelled(attributes) + (gap + (TagEnd(selfClosing) + k))) ==
      Ok(Tag(PairsOf(attributes), selfClosing, k))
  {
    hide ReadAttributes, SpelledText, IsSpelled, TagEnd, PairOf;
    var end := gap + (TagEnd(selfClosing) + k);
    if attributes == [] {
      assert AllSpelled(attributes) + end == end && PairsOf(attributes) == [];
      EndOfTag(gap, selfClosing, k);
    } else {
      var rest := attributes[1..];
      AttributesAreRead(rest, gap, selfClosing, k);
      OneMoreAttribute(attributes[0], AllSpelled(rest) + end);
      AppendAssociative(SpelledText(attributes[0]), AllSpelled(rest), end);
      assert PairsOf(attributes) == [PairOf(attributes[0])] + PairsOf(rest);
    }
  }
}
