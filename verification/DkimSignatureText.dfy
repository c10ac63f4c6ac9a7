/** A signature written as a field, in any of the ways a signer may, is read back (`email/dkim-signature.ts`). */
module DkimSignatureText {
  import opened Wrappers
  import opened Octets
  import opened Scan
  import JsText
  import opened DkimCanonicalize
  import opened DkimTagList
  import opened DkimSignature

  // ---- How each tag may be written

  function AlgorithmName(algorithm: Algorithm): string {
    if algorithm.RsaSha256? then "rsa-sha256" else "ed25519-sha256"
  }

  function CanonicalizationName(algorithm: Canonicalization): string {
    if algorithm.Simple? then "simple" else "relaxed"
  }

  /** `c=`: the header's and the body's way in this order, either left out when it is "simple". */
  predicate SpellsCanonicalization(value: Option<string>, header: Canonicalization, body: Canonicalization) {
    match value
    case None => header.Simple? && body.Simple?
    case Some(text) =>
      || (Lower(text) == CanonicalizationName(header) && body.Simple?)
      || Lower(text) == CanonicalizationName(header) + ("/" + CanonicalizationName(body))
  }

  /** A name in any case with white space anywhere in it. */
  predicate SpellsName(text: string, name: string) {
    if text == "" then name == ""
    else if IsWsp(text[0]) then SpellsName(text[1..], name)
    else name != "" && LowerChar(text[0]) == name[0] && SpellsName(text[1..], name[1..])
  }

  /** `h=`: the names between colons. */
  ghost predicate SpellsNames(value: string, names: seq<string>) {
    exists parts: seq<string> :: IsNameList(parts, names) && value == JoinWith(parts, ':')
  }

  predicate IsNameList(parts: seq<string>, names: seq<string>) {
    && |parts| == |names| && parts != []
    && forall i :: 0 <= i < |parts| ==> ':' !in parts[i] && SpellsName(parts[i], names[i]) && IsHeaderName(names[i])
  }

  /** `bh=`: white space may stand anywhere in it. */
  predicate SpellsHash(text: string, hash: string) {
    if text == "" then hash == ""
    else if JsText.IsJsSpace(text[0]) then SpellsHash(text[1..], hash)
    else hash != "" && text[0] == hash[0] && SpellsHash(text[1..], hash[1..])
  }

  function DecimalText(n: nat): string {
    (if n < 10 then "" else DecimalText(n / 10)) + [(n % 10 + '0' as int) as char]
  }

  predicate SpellsNumber(value: Option<string>, n: Option<nat>) {
    value == if n.None? then None else Some(DecimalText(n.value))
  }

  /** The tags say the signature; tags of other names may stand among them. */
  ghost predicate Spells(found: map<string, string>, s: Signature, b: string) {
    && HasRequired(found) && found["v"] == "1" && Lower(found["a"]) == AlgorithmName(s.algorithm)
    && Lower(found["d"]) == s.domain != "" && Lower(found["s"]) == s.selector != ""
    && SpellsNames(found["h"], s.signedHeaders) && SpellsHash(found["bh"], s.bodyHash) && s.bodyHash != ""
    && found["b"] == b != "" && SpellsCanonicalization(Get(found, "c"), s.header, s.body)
    && SpellsNumber(Get(found, "t"), s.timestamp) && SpellsNumber(Get(found, "x"), s.expiration)
    && SpellsNumber(Get(found, "l"), s.bodyLength) && (s.bodyLength.Some? ==> s.bodyLength.value <= MAX_SAFE_INTEGER)
    && Get(found, "q") == s.queryMethod
    && Get(found, "i") == s.identity && (s.identity.Some? ==> '@' in s.identity.value)
  }

  // ---- Names

  lemma {:induction false} LowerOne(s: string)
    requires s != ""
    ensures Lower(s) == [LowerChar(s[0])] + Lower(s[1..])
  {
  }

  lemma {:induction false} LowerIsWsp(c: char)
    ensures IsWsp(LowerChar(c)) <==> IsWsp(c)
    ensures LowerChar(c) == ':' <==> c == ':'
  {
  }

  lemma {:induction false} SpelledName(text: string, name: string)
    requires SpellsName(text, name)
    ensures Without(Wsp, Lower(text)) == name
  {
    hide Lower, LowerChar;
    if text == "" {
      NoLower();
    } else {
      LowerOne(text);
      LowerIsWsp(text[0]);
      assert Lower(text)[1..] == Lower(text[1..]) && Lower(text)[0] == LowerChar(text[0]);
      if IsWsp(text[0]) {
        SpelledName(text[1..], name);
      } else {
        SpelledName(text[1..], name[1..]);
        assert name == [name[0]] + name[1..];
      }
    }
  }

  lemma {:induction false} NoLower()
    ensures Lower("") == ""
  {
  }

  function LowerAll(parts: seq<string>): (r: seq<string>)
    ensures |r| == |parts| && forall i :: 0 <= i < |parts| ==> r[i] == Lower(parts[i])
  {
    if parts == [] then [] else [Lower(parts[0])] + LowerAll(parts[1..])
  }

  lemma {:induction false} LowerJoins(a: string, b: string)
    ensures Lower(a + b) == Lower(a) + Lower(b)
  {
  }

  lemma {:induction false} LowerJoin(parts: seq<string>)
    requires parts != []
    ensures Lower(JoinWith(parts, ':')) == JoinWith(LowerAll(parts), ':')
  {
    hide Lower;
    if |parts| > 1 {
      var rest := JoinWith(parts[1..], ':');
      LowerJoin(parts[1..]);
      LowerJoins(parts[0], [':'] + rest);
      LowerJoins([':'], rest);
      LowerColon();
      assert LowerAll(parts)[1..] == LowerAll(parts[1..]);
    }
  }

  lemma {:induction false} LowerColon()
    ensures Lower([':']) == [':']
  {
  }

  lemma {:induction false} NoColon(s: string)
    requires ':' !in s
    ensures ':' !in Lower(s)
  {
    forall i | 0 <= i < |s|
      ensures Lower(s)[i] != ':'
    {
      LowerIsWsp(s[i]);
    }
  }

  lemma {:induction false} NamesLeft(parts: seq<string>, names: seq<string>)
    requires |parts| == |names| && forall i :: 0 <= i < |parts| ==> Without(Wsp, parts[i]) == names[i] && names[i] != ""
    ensures NonEmptyNames(parts) == names
  {
    hide Without;
    if parts != [] {
      NamesLeft(parts[1..], names[1..]);
      assert names == [names[0]] + names[1..];
    }
  }

  lemma {:induction false} NoneBad(names: seq<string>)
    requires forall i :: 0 <= i < |names| ==> IsHeaderName(names[i])
    ensures FirstBadName(names) == None
  {
    hide IsHeaderName;
    if names != [] {
      NoneBad(names[1..]);
    }
  }

  lemma {:induction false} NamesAreRead(value: string, names: seq<string>)
    requires SpellsNames(value, names)
    ensures SignedNames(value) == names != [] && FirstBadName(names) == None
  {
    hide Lower, SpellsName, IsHeaderName;
    var parts: seq<string> :| IsNameList(parts, names) && value == JoinWith(parts, ':');
    var lowered := LowerAll(parts);
    LowerJoin(parts);
    forall i | 0 <= i < |parts|
      ensures ':' !in lowered[i] && Without(Wsp, lowered[i]) == names[i] && names[i] != ""
    {
      NoColon(parts[i]);
      SpelledName(parts[i], names[i]);
      HeaderNameIsNotEmpty(names[i]);
    }
    SplitUndoesJoinWith(lowered, ':');
    NamesLeft(lowered, names);
    NoneBad(names);
  }

  lemma {:induction false} HeaderNameIsNotEmpty(name: string)
    requires IsHeaderName(name)
    ensures name != ""
  {
  }

  // ---- The other tags

  lemma {:induction false} HashIsRead(text: string, hash: string)
    requires SpellsHash(text, hash)
    ensures WithoutJsSpace(text) == hash && (hash != "" ==> text != "")
  {
    hide JsText.IsJsSpace;
    if text != "" {
      if JsText.IsJsSpace(text[0]) {
        HashIsRead(text[1..], hash);
      } else {
        HashIsRead(text[1..], hash[1..]);
        assert hash == [hash[0]] + hash[1..];
      }
    }
  }

  lemma {:induction false} DecimalIsRead(n: nat)
    ensures IsDecimal(DecimalText(n)) && Decimal(DecimalText(n)) == n
  {
    var text := DecimalText(n);
    var last := (n % 10 + '0' as int) as char;
    if n < 10 {
      assert text == [last] && text[..0] == "";
    } else {
      DecimalIsRead(n / 10);
      assert text == DecimalText(n / 10) + [last] && text[..|text| - 1] == DecimalText(n / 10);
    }
  }

  lemma {:induction false} NumberIsRead(found: map<string, string>, name: string, n: Option<nat>)
    requires SpellsNumber(Get(found, name), n)
    ensures Number(found, name) == Ok(n)
  {
    hide Decimal, IsDecimal, DecimalText;
    if n.Some? {
      DecimalIsRead(n.value);
    }
  }

  lemma {:induction false} AlgorithmIsRead(value: string, algorithm: Algorithm)
    requires Lower(value) == AlgorithmName(algorithm)
    ensures ParseAlgorithm(value) == Some(algorithm)
  {
    hide Lower;
    assert "ed25519-sha256"[0] != "rsa-sha256"[0];
  }

  lemma {:induction false} PartIsRead(algorithm: Canonicalization)
    ensures var name := CanonicalizationName(algorithm); ParsePart(name) == Some(algorithm) && '/' !in name
  {
    assert "simple"[0] != "relaxed"[0];
  }

  lemma {:induction false} OnePart(value: string, part: string)
    requires '/' !in part && Lower(value) == part
    ensures SplitOn(Lower(value), '/') == [part]
  {
    hide Lower;
    IndexOfIsFirst(part, '/');
  }

  /** The header's way comes first and the body's second. */
  lemma {:induction false} CanonicalizationIsRead(value: Option<string>, header: Canonicalization, body: Canonicalization)
    requires SpellsCanonicalization(value, header, body)
    ensures ParseCanonicalization(if value.Some? then value.value else "simple/simple") == Some((header, body))
  {
    hide Lower, SplitOn, ParsePart, CanonicalizationName;
    PartIsRead(header);
    PartIsRead(body);
    ParseSimple();
    if value.Some? {
      var first, second := CanonicalizationName(header), CanonicalizationName(body);
      if Lower(value.value) == first && body.Simple? {
        OnePart(value.value, first);
      } else {
        SplitInTwo(first, second, '/');
        assert "/" == ['/'];
      }
    }
  }

  lemma {:induction false} NothingIsMissing(found: map<string, string>, s: Signature, b: string)
    requires Spells(found, s, b)
    ensures FirstMissing(REQUIRED, found) == None
  {
    hide SpellsNames, SpellsHash, SpellsCanonicalization, SpellsNumber, FirstMissing, SignedNames;
    NamesAreRead(found["h"], s.signedHeaders);
    NoNames();
    HashIsRead(found["bh"], s.bodyHash);
    NoLower();
    assert found["h"] != "";
    assert found["a"] != "" by {
      assert AlgorithmName(s.algorithm) != "";
    }
    hide Lower, AlgorithmName;
    RequiredAreThere(found);
  }

  lemma {:induction false} NoNames()
    ensures SignedNames("") == []
  {
    NoLower();
    assert SplitOn("", ':') == [""];
  }

  lemma {:induction false} RequiredAreThere(found: map<string, string>)
    requires HasRequired(found)
    requires found["v"] != "" && found["a"] != "" && found["d"] != "" && found["s"] != "" && found["h"] != ""
    requires found["bh"] != "" && found["b"] != ""
    ensures FirstMissing(REQUIRED, found) == None
  {
    forall i | 0 <= i < |REQUIRED|
      ensures REQUIRED[i] in found && found[REQUIRED[i]] != ""
    {
      assert REQUIRED[i] in {"v", "a", "d", "s", "h", "bh", "b"};
    }
    NothingMissing(REQUIRED, found);
  }

  lemma {:induction false} NumbersAreRead(found: map<string, string>, s: Signature, b: string)
    requires Spells(found, s, b)
    ensures FromNumbers(found, (s.header, s.body), s.algorithm, s.signedHeaders) == Ok(s)
  {
    hide SpellsNames, SpellsCanonicalization, SpellsNumber, Lower, Number, WithoutJsSpace, SpellsHash, AlgorithmName;
    NumberIsRead(found, "t", s.timestamp);
    NumberIsRead(found, "x", s.expiration);
    NumberIsRead(found, "l", s.bodyLength);
    HashIsRead(found["bh"], s.bodyHash);
  }

  lemma {:induction false} TagsAreRead(found: map<string, string>, s: Signature, b: string)
    requires Spells(found, s, b)
    ensures FromTags(found) == Ok(s)
  {
    hide SpellsNames, SpellsCanonicalization, SpellsNumber, Lower, SpellsHash, ParseCanonicalization, ParseAlgorithm;
    hide SignedNames, FirstBadName, FromNumbers, AlgorithmName;
    hide FirstMissing;
    NothingIsMissing(found, s, b);
    NoneMissing(found);
    NamesAreRead(found["h"], s.signedHeaders);
    AlgorithmIsRead(found["a"], s.algorithm);
    CanonicalizationIsRead(Get(found, "c"), s.header, s.body);
    NumbersAreRead(found, s, b);
  }

  /**
   * A list of tags in any order and spacing that says a signature is read as exactly that signature and
   * its `b=`.
   */
  lemma {:induction false} SignatureIsRead(
    list: seq<Printed>, names: seq<string>, values: seq<string>, found: map<string, string>, tail: string,
    s: Signature, b: string)
    requires IsListOf(list, names, values) && IsTail(tail) && Spells(found, s, b)
    requires forall name :: name in found <==> name in names
    requires forall i :: 0 <= i < |names| ==> found[names[i]] == values[i]
    ensures Parse(Print(list, tail)) == Ok((s, b))
  {
    hide Spells, ScanTags, IsTagOf, Print, FromTags, IsTail;
    ListOfScans(list, names, values, tail);
    SameFound(names, values, Values(ScanTags(Print(list, tail)).value), found);
    TagsAreRead(found, s, b);
    SaysB(found, s, b);
  }

  lemma {:induction false} SaysB(found: map<string, string>, s: Signature, b: string)
    requires Spells(found, s, b)
    ensures "b" in found && found["b"] == b
  {
  }

  lemma {:induction false} SameFound(
    names: seq<string>, values: seq<string>, a: map<string, string>, b: map<string, string>)
    requires |names| == |values|
    requires forall name :: name in a <==> name in names
    requires forall name :: name in b <==> name in names
    requires forall i :: 0 <= i < |names| ==> a[names[i]] == values[i] && b[names[i]] == values[i]
    ensures a == b
  {
    forall name | name in a
      ensures a[name] == b[name]
    {
      var i :| 0 <= i < |names| && names[i] == name;
    }
  }
}
