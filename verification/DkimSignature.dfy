/** Reading a `DKIM-Signature` field from its tags (`email/dkim-signature.ts`; section 3.5 of RFC 6376). */
module DkimSignature {
  import opened Wrappers
  import opened Octets
  import opened Scan
  import JsText
  import opened DkimCanonicalize
  import opened DkimTagList

  datatype Algorithm = RsaSha256 | Ed25519Sha256

  /** What a signature says, but for the value of `b=`. */
  datatype Signature = Signature(
    algorithm: Algorithm, domain: string, selector: string, signedHeaders: seq<string>, bodyHash: string,
    header: Canonicalization, body: Canonicalization, timestamp: Option<nat>, expiration: Option<nat>,
    bodyLength: Option<nat>, queryMethod: Option<string>, identity: Option<string>)

  datatype SignatureError =
    | TagList(error: ScanError) | MissingTag(name: string) | UnsupportedVersion | UnsupportedCanonicalization
    | UnsupportedAlgorithm | NoSignedHeaders | BadHeaderName(name: string) | NoIdentityDomain | NotANumber(tag: string)
    | OutOfRange

  const REQUIRED: seq<string> := ["v", "a", "d", "s", "h", "bh", "b"]

  function FirstMissing(required: seq<string>, values: map<string, string>): Option<string> {
    if required == [] then None
    else if required[0] !in values || values[required[0]] == "" then Some(required[0])
    else FirstMissing(required[1..], values)
  }

  // ---- Values of single tags

  /** `parseCanonicalization`: what follows a second "/" is not looked at. */
  function ParseCanonicalization(value: string): Option<(Canonicalization, Canonicalization)> {
    var parts := SplitOn(Lower(value), '/');
    var header := ParsePart(parts[0]);
    var body := if |parts| == 1 then Some(Simple) else ParsePart(parts[1]);
    if header.Some? && body.Some? then Some((header.value, body.value)) else None
  }

  function ParsePart(part: string): Option<Canonicalization> {
    if part == "simple" then Some(Simple) else if part == "relaxed" then Some(Relaxed) else None
  }

  function ParseAlgorithm(value: string): Option<Algorithm> {
    if Lower(value) == "rsa-sha256" then Some(RsaSha256)
    else if Lower(value) == "ed25519-sha256" then Some(Ed25519Sha256)
    else None
  }

  function Without(class_: Class, s: string): string {
    if s == "" then "" else if In(class_, s[0]) then Without(class_, s[1..]) else [s[0]] + Without(class_, s[1..])
  }

  function WithoutJsSpace(s: string): string {
    if s == "" then "" else if JsText.IsJsSpace(s[0]) then WithoutJsSpace(s[1..]) else [s[0]] + WithoutJsSpace(s[1..])
  }

  function NonEmptyNames(parts: seq<string>): seq<string> {
    if parts == [] then []
    else (if Without(Wsp, parts[0]) == "" then [] else [Without(Wsp, parts[0])]) + NonEmptyNames(parts[1..])
  }

  /** The names of `h=`: lower case, white space removed, empty ones dropped. */
  function SignedNames(value: string): seq<string> {
    NonEmptyNames(SplitOn(Lower(value), ':'))
  }

  /** RFC 5322 `ftext`: printable ASCII but the colon. */
  predicate IsHeaderName(name: string) {
    name != "" && forall i :: 0 <= i < |name| ==> '!' <= name[i] <= '~' && name[i] != ':'
  }

  function FirstBadName(names: seq<string>): Option<string> {
    if names == [] then None else if !IsHeaderName(names[0]) then Some(names[0]) else FirstBadName(names[1..])
  }

  predicate IsDecimal(s: string) {
    s != "" && forall i :: 0 <= i < |s| ==> '0' <= s[i] <= '9'
  }

  function Decimal(s: string): nat
    requires forall i :: 0 <= i < |s| ==> '0' <= s[i] <= '9'
  {
    if s == "" then 0 else 10 * Decimal(s[..|s| - 1]) + (s[|s| - 1] as int - '0' as int)
  }

  const MAX_SAFE_INTEGER := 9007199254740991

  function Get(values: map<string, string>, name: string): Option<string> {
    if name in values then Some(values[name]) else None
  }

  /** A numeric tag that may be missing. */
  function Number(values: map<string, string>, name: string): Result<Option<nat>, SignatureError> {
    if name !in values then Ok(None)
    else if !IsDecimal(values[name]) then Err(NotANumber(name))
    else Ok(Some(Decimal(values[name])))
  }

  // ---- The whole field

  /** `parseDkimSignatureHeader`, after the scan. */
  function FromTags(values: map<string, string>): Result<Signature, SignatureError> {
    var missing := FirstMissing(REQUIRED, values);
    if missing.Some? then Err(MissingTag(missing.value))
    else
      NoneMissing(values);
      FromComplete(values)
  }

  predicate HasRequired(values: map<string, string>) {
    && "v" in values && "a" in values && "d" in values && "s" in values && "h" in values && "bh" in values
    && "b" in values
  }

  lemma {:induction false} NoneMissing(values: map<string, string>)
    requires FirstMissing(REQUIRED, values) == None
    ensures HasRequired(values)
  {
    var r := REQUIRED;
    NotMissing(r, values, 0);
    NotMissing(r, values, 1);
    NotMissing(r, values, 2);
    NotMissing(r, values, 3);
    NotMissing(r, values, 4);
    NotMissing(r, values, 5);
    NotMissing(r, values, 6);
  }

  lemma {:induction false} NotMissing(required: seq<string>, values: map<string, string>, i: nat)
    requires i < |required| && FirstMissing(required, values) == None
    ensures required[i] in values && values[required[i]] != ""
  {
    if i > 0 {
      NotMissing(required[1..], values, i - 1);
    }
  }

  function FromComplete(values: map<string, string>): Result<Signature, SignatureError>
    requires HasRequired(values)
  {
    if values["v"] != "1" then Err(UnsupportedVersion)
    else FromVersion1(values)
  }

  function FromVersion1(values: map<string, string>): Result<Signature, SignatureError>
    requires HasRequired(values)
  {
    var canonicalization := ParseCanonicalization(if "c" in values then values["c"] else "simple/simple");
    var algorithm := ParseAlgorithm(values["a"]);
    var names := SignedNames(values["h"]);
    if canonicalization.None? then Err(UnsupportedCanonicalization)
    else if algorithm.None? then Err(UnsupportedAlgorithm)
    else if names == [] then Err(NoSignedHeaders)
    else if FirstBadName(names).Some? then Err(BadHeaderName(FirstBadName(names).value))
    else if "i" in values && '@' !in values["i"] then Err(NoIdentityDomain)
    else FromNumbers(values, canonicalization.value, algorithm.value, names)
  }

  function FromNumbers(
    values: map<string, string>, canonicalization: (Canonicalization, Canonicalization), algorithm: Algorithm,
    names: seq<string>): Result<Signature, SignatureError>
    requires HasRequired(values)
  {
    var t :- Number(values, "t");
    var x :- Number(values, "x");
    var l :- Number(values, "l");
    if l.Some? && l.value > MAX_SAFE_INTEGER then Err(OutOfRange)
    else
      Ok(Signature(algorithm, Lower(values["d"]), Lower(values["s"]), names, WithoutJsSpace(values["bh"]),
        canonicalization.0, canonicalization.1, t, x, l, Get(values, "q"), Get(values, "i")))
  }

  /** A field: what it says, and the value of its `b=`. */
  function Parse(raw: string): Result<(Signature, string), SignatureError> {
    match ScanTags(raw)
    case Err(error) => Err(TagList(error))
    case Ok(tags) =>
      var values := Values(tags);
      match FromTags(values)
      case Err(error) => Err(error)
      case Ok(signature) => Ok((signature, if "b" in values then values["b"] else ""))
  }

  /** Nothing but whether it is there is read of `b=`. */
  lemma {:induction false} OnlyPresenceOfB(values: map<string, string>, value: string)
    requires "b" in values && values["b"] != "" && value != ""
    ensures FromTags(values["b" := value]) == FromTags(values)
  {
    SameMissing(REQUIRED, values, value);
    if FirstMissing(REQUIRED, values) == None {
      NoneMissing(values);
      OnlyOthers(values, value);
    }
  }

  lemma {:induction false} SameMissing(required: seq<string>, values: map<string, string>, value: string)
    requires "b" in values && values["b"] != "" && value != ""
    ensures FirstMissing(required, values["b" := value]) == FirstMissing(required, values)
  {
    if required != [] {
      SameMissing(required[1..], values, value);
    }
  }

  lemma {:induction false} OnlyOthers(values: map<string, string>, value: string)
    requires HasRequired(values)
    ensures FromComplete(values["b" := value]) == FromComplete(values)
  {
    hide ParseCanonicalization, ParseAlgorithm, SignedNames, FirstBadName, Lower, WithoutJsSpace;
  }

  // ---- A signature field whose deletion differs from the standard

  lemma {:induction false} DistinctAreNew(list: seq<Printed>, taken: set<string>)
    requires forall i :: 0 <= i < |list| ==> Lower(list[i].name) !in taken
    requires forall i, j :: 0 <= i < j < |list| ==> Lower(list[i].name) != Lower(list[j].name)
    ensures AreNew(list, taken)
    decreases |list|
  {
    hide Lower;
    if list != [] {
      DistinctAreNew(list[1..], taken + {Lower(list[0].name)});
    }
  }

  /** The values of a list are its own values and those from before, each under its name. */
  lemma {:induction false} ListedValues(list: seq<Printed>, values: map<string, string>)
    requires AreNew(list, values.Keys)
    ensures forall name :: name in ListValues(list, values) <==>
      name in values || exists i :: 0 <= i < |list| && Lower(list[i].name) == name
    ensures forall name :: name in values ==> ListValues(list, values)[name] == values[name]
    ensures forall i :: 0 <= i < |list| ==> ListValues(list, values)[Lower(list[i].name)] == UnfoldValue(list[i].value)
    decreases |list|
  {
    hide Lower, UnfoldValue;
    if list != [] {
      var head := Lower(list[0].name);
      var next := values[head := UnfoldValue(list[0].value)];
      assert next.Keys == values.Keys + {head};
      ListedValues(list[1..], next);
      StillNew(list[1..], next.Keys);
      assert list == [list[0]] + list[1..];
    }
  }

  lemma {:induction false} StillNew(list: seq<Printed>, taken: set<string>)
    requires AreNew(list, taken)
    ensures forall i :: 0 <= i < |list| ==> Lower(list[i].name) !in taken
    decreases |list|
  {
    hide Lower;
    if list != [] {
      StillNew(list[1..], taken + {Lower(list[0].name)});
    }
  }

  lemma {:induction false} UnfoldNothing(s: string)
    requires forall i :: 0 <= i < |s| ==> !In(Fws, s[i])
    ensures RemoveFolds(s) == s && CollapseFws(s) == s && UnfoldValue(s) == s
    decreases |s|
  {
    if s != "" {
      UnfoldNothing(s[1..]);
      assert [s[0]] + s[1..] == s;
    }
  }

  lemma {:induction false} NothingMissing(required: seq<string>, values: map<string, string>)
    requires forall i :: 0 <= i < |required| ==> required[i] in values && values[required[i]] != ""
    ensures FirstMissing(required, values) == None
  {
    if required != [] {
      NothingMissing(required[1..], values);
    }
  }

  /** A list of tags by their names and their values. */
  predicate IsListOf(list: seq<Printed>, names: seq<string>, values: seq<string>) {
    && |list| == |names| == |values|
    && (forall i :: 0 <= i < |list| ==> IsTagOf(list[i], names[i], values[i]))
    && (forall i :: 1 <= i < |list| ==> list[i].lead != "" && list[i].lead[0] == ';')
    && (forall i, j :: 0 <= i < j < |names| ==> names[i] != names[j])
  }

  predicate IsTagOf(p: Printed, name: string, value: string) {
    IsPrintable(p) && Lower(p.name) == name && UnfoldValue(p.value) == value
  }

  /** What may stand after the last tag. */
  predicate IsTail(tail: string) {
    All(Separator, tail) && IsSeparated(tail)
  }

  lemma {:induction false} ListOfScans(list: seq<Printed>, names: seq<string>, values: seq<string>, tail: string)
    requires IsListOf(list, names, values) && IsTail(tail)
    ensures IsTagList(list, tail) && AreNew(list, {}) && ScanTags(Print(list, tail)).Ok?
    ensures var found := Values(ScanTags(Print(list, tail)).value);
      && (forall name :: name in found <==> name in names)
      && forall i :: 0 <= i < |names| ==> found[names[i]] == values[i]
  {
    hide Lower, UnfoldValue, IsPrintable, Print, ScanFrom, Collect;
    DistinctAreNew(list, {});
    var tags: Tags, none: map<string, string> := map[], map[];
    assert tags.Keys == {} && none.Keys == {} && Values(tags) == none;
    ScanUndoesPrint(list, tail, 0, tags);
    CollectedValues(list, 0, tags);
    ListedValues(list, none);
    var found := ListValues(list, none);
    forall i | 0 <= i < |names|
      ensures found[names[i]] == values[i]
    {
      assert Lower(list[i].name) == names[i];
    }
  }

  function Tight(lead: string, name: string, value: string): Printed {
    Printed(lead, name, "", "", value, "")
  }

  const NAMES: seq<string> := ["v", "a", "d", "s", "h", "bh", "b"]

  const VALUES: seq<string> := ["1", "rsa-sha256", "d", "s", "from", "x", "abc"]

  /** The tags of a complete signature field, `v=1;a=rsa-sha256;d=d;s=s;h=from;bh=x`, before its `b=`. */
  const FRONT: seq<Printed> :=
    seq(6, k requires 0 <= k < 6 => Tight(if k == 0 then "" else ";", NAMES[k], VALUES[k]))

  /** `;b=abc `, with a blank at the end. */
  const BLANK_B := Printed(";", NAMES[6], "", "", VALUES[6], " ")

  /** The characters of a tag that needs no care. */
  predicate IsEasy(name: string, value: string) {
    && name != "" && value != ""
    && (forall i :: 0 <= i < |name| ==> 'a' <= name[i] <= 'z')
    && (forall i :: 0 <= i < |value| ==> 'a' <= value[i] <= 'z' || '0' <= value[i] <= '9' || value[i] == '-')
  }

  lemma {:induction false} EasyTag(lead: string, name: string, value: string, trail: string)
    requires IsEasy(name, value) && lead in {"", ";"} && trail in {"", " "}
    ensures IsTagOf(Printed(lead, name, "", "", value, trail), name, value)
  {
    UnfoldNothing(value);
    assert Lower(name) == name;
    hide UnfoldValue, Lower;
  }

  lemma {:induction false} EasyNames(k: nat)
    requires k < 7
    ensures IsEasy(NAMES[k], VALUES[k])
  {
  }

  lemma {:induction false} NamesDiffer()
    ensures forall i, j :: 0 <= i < j < |NAMES| ==> NAMES[i] != NAMES[j]
    ensures forall i :: 0 <= i < |NAMES| ==> NAMES[i] !in {"c", "i", "t", "x", "l"}
  {
    assert forall i :: 0 <= i < |NAMES| ==> NAMES[i][0] !in {'c', 'i', 't', 'x', 'l'};
    assert forall i, j :: 0 <= i < j < |NAMES| ==> NAMES[i][0] != NAMES[j][0] || |NAMES[i]| != |NAMES[j]|;
  }

  lemma {:induction false} FieldIsListOf()
    ensures IsListOf(FRONT + [BLANK_B] + [], NAMES, VALUES)
  {
    var list := FRONT + [BLANK_B] + [];
    forall k | 0 <= k < |list|
      ensures IsTagOf(list[k], NAMES[k], VALUES[k]) && (k > 0 ==> list[k].lead == ";")
    {
      EasyNames(k);
      EasyTag(if k == 0 then "" else ";", NAMES[k], VALUES[k], if k == 6 then " " else "");
      hide IsTagOf, NAMES, VALUES;
      assert list[k] == Printed(if k == 0 then "" else ";", NAMES[k], "", "", VALUES[k], if k == 6 then " " else "");
    }
    NamesDiffer();
    hide IsTagOf, NAMES, VALUES;
  }

  lemma {:induction false} SplitInTwo(a: string, b: string, separator: char)
    requires separator !in a && separator !in b
    ensures SplitOn(a + ([separator] + b), separator) == [a, b]
  {
    SplitFirst(a, b, separator);
    IndexOfIsFirst(b, separator);
  }

  lemma {:induction false} ParseTwice(value: string, part: string, algorithm: Canonicalization)
    requires '/' !in part && Lower(value) == part + (['/'] + part) && ParsePart(part) == Some(algorithm)
    ensures ParseCanonicalization(value) == Some((algorithm, algorithm))
  {
    hide SplitOn, Lower, ParsePart;
    SplitInTwo(part, part, '/');
  }

  lemma {:induction false} ParseSimple()
    ensures ParseCanonicalization("simple/simple") == Some((Simple, Simple))
  {
    hide ParseCanonicalization, SplitOn;
    assert Lower("simple/simple") == "simple" + (['/'] + "simple");
    ParseTwice("simple/simple", "simple", Simple);
  }

  lemma {:induction false} RsaIsKnown()
    ensures ParseAlgorithm("rsa-sha256") == Some(RsaSha256)
  {
    assert Lower("rsa-sha256") == "rsa-sha256";
  }

  lemma {:induction false} FromIsAName()
    ensures SignedNames("from") == ["from"] && FirstBadName(["from"]) == None
  {
    assert Lower("from") == "from";
    IndexOfIsFirst("from", ':');
    assert SplitOn("from", ':') == ["from"];
    WithoutNothing("from");
    assert ["from"][1..] == [];
  }

  lemma {:induction false} WithoutNothing(s: string)
    requires forall i :: 0 <= i < |s| ==> !In(Wsp, s[i])
    ensures Without(Wsp, s) == s
  {
    if s != "" {
      WithoutNothing(s[1..]);
      assert [s[0]] + s[1..] == s;
    }
  }

  lemma {:induction false} NoNumbers(
    values: map<string, string>, canonicalization: (Canonicalization, Canonicalization), algorithm: Algorithm,
    names: seq<string>)
    requires HasRequired(values) && "t" !in values && "x" !in values && "l" !in values
    ensures FromNumbers(values, canonicalization, algorithm, names).Ok?
  {
    hide Lower, WithoutJsSpace;
  }

  lemma {:induction false} CompleteIsRead(values: map<string, string>)
    requires FirstMissing(REQUIRED, values) == None
    requires "v" in values && values["v"] == "1" && "a" in values && values["a"] == "rsa-sha256"
    requires "h" in values && values["h"] == "from"
    requires "c" !in values && "i" !in values && "t" !in values && "x" !in values && "l" !in values
    ensures FromTags(values).Ok?
  {
    hide ParseCanonicalization, ParseAlgorithm, SignedNames, FirstBadName, Lower, FirstMissing, FromNumbers;
    ParseSimple();
    FromIsAName();
    RsaIsKnown();
    NoneMissing(values);
    NoNumbers(values, (Simple, Simple), RsaSha256, ["from"]);
  }

  lemma {:induction false} FieldIsRead(values: map<string, string>)
    requires forall name :: name in values <==> name in NAMES
    requires forall i :: 0 <= i < |NAMES| ==> values[NAMES[i]] == VALUES[i]
    ensures FromTags(values).Ok?
  {
    assert forall i :: 0 <= i < |NAMES| ==> NAMES[i] in values;
    assert REQUIRED == NAMES && forall i :: 0 <= i < |VALUES| ==> VALUES[i] != "";
    NothingMissing(REQUIRED, values);
    NamesDiffer();
    assert NAMES[0] == "v" && NAMES[1] == "a" && NAMES[4] == "h";
    hide FirstMissing;
    CompleteIsRead(values);
  }

  /**
   * A signature field that is read, with a blank after the value of `b=`: deleting the value leaves the
   * blank, which section 3.7 of RFC 6376 deletes with it.
   */
  lemma {:induction false} TrailingBlankStays()
    ensures var raw := Print(FRONT + [BLANK_B] + [], ";");
      && Parse(raw).Ok?
      && DeleteTag(raw, "b") == Ok(Print(FRONT + [Tight(";", "b", " ")] + [], ";"))
      && DeleteTag(raw, "b") != Ok(Print(FRONT + [EmptiedByStandard(BLANK_B)] + [], ";"))
      && EmptiedByStandard(BLANK_B) == Tight(";", "b", "")
  {
    var list := FRONT + [BLANK_B] + [];
    assert Lower(BLANK_B.name) == "b" && BLANK_B.trail == " ";
    assert Text(Emptied(BLANK_B)) == Text(Tight(";", "b", " "));
    hide Text, Print, DeleteTag, FromTags, ScanTags, Lower, IsTagList, AreNew, IsListOf, NAMES, VALUES;
    FieldIsListOf();
    ListOfScans(list, NAMES, VALUES, ";");
    FieldIsRead(Values(ScanTags(Print(list, ";")).value));
    DeleteFromList(FRONT, BLANK_B, [], ";");
    DeletedAsStandard(FRONT, BLANK_B, [], ";");
    PrintAround(FRONT, Emptied(BLANK_B), [], ";");
    PrintAround(FRONT, Tight(";", "b", " "), [], ";");
  }
}
